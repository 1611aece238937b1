/** Roles, permissions and scopes: who may do what, where, and to whom. */
module Rbac {
  import opened GoStrings
  import opened Wrappers

  datatype Permission = Permission(id: string, resource: string, action: string) {
    function Name(): string {
      resource + ":" + action
    }
  }

  datatype Role = Role(id: string, ordinal: int, isProtected: bool, permissions: seq<Permission>) {
    predicate HasPermission(resource: string, action: string) {
      exists p | p in permissions :: p.resource == resource && p.action == action
    }

    predicate HasPermissionString(permission: string) {
      match Cut(permission, ':')
      case None => false
      case Some((resource, action)) => HasPermission(resource, action)
    }
  }

  datatype UserRole = UserRole(id: string, revokedAt: Option<int>, role: Option<Role>) {
    /** The assignment is not revoked and its role is loaded. */
    predicate Counts() {
      role.Some? && revokedAt.None?
    }
  }

  /** Both scope identifiers absent: platform; organization alone: organization; client present: client. */
  datatype User = User(org: Option<string>, client: Option<string>, roles: seq<UserRole>) {
    predicate HasProtectedRole() {
      exists ur | ur in roles :: ur.Counts() && ur.role.value.isProtected && ur.role.value.ordinal == 0
    }

    predicate Can(permission: string) {
      HasProtectedRole() || exists ur | ur in roles :: ur.Counts() && ur.role.value.HasPermissionString(permission)
    }
  }

  // ---- Ordinals --------------------------------------------------------------------------------

  /** The strongest (lowest) ordinal of the roles that count; 100 when there is none below. */
  function LowestOrdinal(roles: seq<UserRole>): int {
    if roles == [] then 100
    else
      var rest, ur := LowestOrdinal(roles[..|roles| - 1]), roles[|roles| - 1];
      if ur.Counts() && ur.role.value.ordinal < rest then ur.role.value.ordinal else rest
  }

  lemma {:induction false} LowestOrdinalIsLeast(roles: seq<UserRole>)
    ensures LowestOrdinal(roles) <= 100
    ensures forall ur | ur in roles && ur.Counts() :: LowestOrdinal(roles) <= ur.role.value.ordinal
    ensures LowestOrdinal(roles) == 100 ||
            exists ur | ur in roles :: ur.Counts() && ur.role.value.ordinal == LowestOrdinal(roles)
  {
    if roles != [] {
      var rest, last := roles[..|roles| - 1], roles[|roles| - 1];
      LowestOrdinalIsLeast(rest);
      forall ur | ur in roles && ur.Counts() ensures LowestOrdinal(roles) <= ur.role.value.ordinal {
        assert ur == last || ur in rest;
      }
      assert last in roles;
      if LowestOrdinal(roles) < 100 && LowestOrdinal(roles) == LowestOrdinal(rest) {
        var ur :| ur in rest && ur.Counts() && ur.role.value.ordinal == LowestOrdinal(rest);
        assert ur in roles;
      }
    }
  }

  method ComputeLowestOrdinal(u: User) returns (lowest: int)
    ensures lowest == LowestOrdinal(u.roles)
  {
    lowest := 100;
    for i := 0 to |u.roles|
      invariant lowest == LowestOrdinal(u.roles[..i])
    {
      assert u.roles[..i + 1][..i] == u.roles[..i];
      var ur := u.roles[i];
      if ur.Counts() && ur.role.value.ordinal < lowest {
        lowest := ur.role.value.ordinal;
      }
    }
    assert u.roles[..|u.roles|] == u.roles;
  }

  // ---- The permission list ----------------------------------------------------------------------

  function Names(permissions: seq<Permission>): seq<string> {
    seq(|permissions|, i requires 0 <= i < |permissions| => permissions[i].Name())
  }

  /** Every permission name of the roles that count, in order, with repetitions. */
  function Listed(roles: seq<UserRole>): seq<string> {
    if roles == [] then []
    else
      var ur := roles[|roles| - 1];
      Listed(roles[..|roles| - 1]) + if ur.Counts() then Names(ur.role.value.permissions) else []
  }

  /** The first occurrence of each element, in order. */
  function Distinct(s: seq<string>): seq<string> {
    if s == [] then []
    else
      var rest, last := Distinct(s[..|s| - 1]), s[|s| - 1];
      if last in rest then rest else rest + [last]
  }

  lemma {:induction false} DistinctHasNoDuplicates(s: seq<string>)
    ensures forall x :: x in Distinct(s) <==> x in s
    ensures forall i, j | 0 <= i < j < |Distinct(s)| :: Distinct(s)[i] != Distinct(s)[j]
  {
    if s != [] {
      DistinctHasNoDuplicates(s[..|s| - 1]);
      assert s == s[..|s| - 1] + [s[|s| - 1]];
    }
  }

  /** The inner loop of GetPermissions: one role's names are appended where they are new. */
  method AppendNew(ps: seq<Permission>, seen: set<string>, permissions: seq<string>, ghost before: seq<string>)
    returns (nowSeen: set<string>, r: seq<string>)
    requires permissions == Distinct(before) && forall x :: x in seen <==> x in permissions
    ensures r == Distinct(before + Names(ps)) && forall x :: x in nowSeen <==> x in r
  {
    nowSeen, r := seen, permissions;
    assert before + Names(ps)[..0] == before;
    for j := 0 to |ps|
      invariant r == Distinct(before + Names(ps)[..j])
      invariant forall x :: x in nowSeen <==> x in r
    {
      ghost var all := before + Names(ps)[..j + 1];
      assert all[..|all| - 1] == before + Names(ps)[..j];
      var key := ps[j].Name();
      if key !in nowSeen {
        nowSeen := nowSeen + {key};
        r := r + [key];
      }
    }
    assert Names(ps)[..|ps|] == Names(ps);
  }

  method GetPermissions(u: User) returns (permissions: seq<string>)
    ensures permissions == Distinct(Listed(u.roles))
  {
    var seen := {};
    permissions := [];
    for i := 0 to |u.roles|
      invariant permissions == Distinct(Listed(u.roles[..i]))
      invariant forall x :: x in seen <==> x in permissions
    {
      var ur := u.roles[i];
      assert u.roles[..i + 1][..i] == u.roles[..i];
      if ur.Counts() {
        seen, permissions := AppendNew(ur.role.value.permissions, seen, permissions, Listed(u.roles[..i]));
      } else {
        assert Listed(u.roles[..i]) + [] == Listed(u.roles[..i]);
      }
    }
    assert u.roles[..|u.roles|] == u.roles;
  }

  lemma {:induction false} ListedExactly(roles: seq<UserRole>, s: string)
    ensures s in Listed(roles) <==>
            exists ur, p | ur in roles && ur.Counts() && p in ur.role.value.permissions :: p.Name() == s
  {
    if roles != [] {
      var rest, last := roles[..|roles| - 1], roles[|roles| - 1];
      ListedExactly(rest, s);
      assert roles == rest + [last];
      if last.Counts() {
        var ps := last.role.value.permissions;
        assert s in Names(ps) <==> exists p | p in ps :: p.Name() == s by {
          if s in Names(ps) {
            var i :| 0 <= i < |ps| && Names(ps)[i] == s;
            assert ps[i].Name() == s;
          }
          if p :| p in ps && p.Name() == s {
            var i :| 0 <= i < |ps| && ps[i] == p;
            assert Names(ps)[i] == s;
          }
        }
      }
    }
  }

  predicate ColonFree(u: User) {
    forall ur, p | ur in u.roles && ur.Counts() && p in ur.role.value.permissions :: ':' !in p.resource
  }

  lemma {:induction false} StringMatchesName(p: Permission, s: string)
    ensures Cut(s, ':') == Some((p.resource, p.action)) <==> s == p.Name() && ':' !in p.resource
  {
    JoinUndoesCut(s, ':');
    if ':' !in p.resource { CutUndoesJoin(p.resource, p.action, ':'); }
  }

  /** Without a protected role, Can grants exactly the names of held permissions whose resource has no colon. */
  lemma {:induction false} CanExactly(u: User, s: string)
    requires !u.HasProtectedRole()
    ensures u.Can(s) <==>
            exists ur, p | ur in u.roles && ur.Counts() && p in ur.role.value.permissions ::
              p.Name() == s && ':' !in p.resource
  {
    forall p: Permission ensures Cut(s, ':') == Some((p.resource, p.action)) <==> s == p.Name() && ':' !in p.resource {
      StringMatchesName(p, s);
    }
    if u.Can(s) {
      var ur :| ur in u.roles && ur.Counts() && ur.role.value.HasPermissionString(s);
      var (resource, action) := Cut(s, ':').value;
      var p :| p in ur.role.value.permissions && p.resource == resource && p.action == action;
      assert p.Name() == s;
    }
    if ur, p :| ur in u.roles && ur.Counts() && p in ur.role.value.permissions && p.Name() == s && ':' !in p.resource {
      assert ur.role.value.HasPermission(p.resource, p.action);
    }
  }

  /**
   * For every user: what Can grants, said of the fields of the assignments. An assignment is active while it is not
   * revoked, and a role of ordinal zero that is protected grants everything.
   */
  lemma {:induction false} CanInFull(u: User, s: string)
    ensures u.Can(s) <==>
            exists ur | ur in u.roles ::
              && ur.role.Some? && ur.revokedAt.None?
              && (|| (ur.role.value.isProtected && ur.role.value.ordinal == 0)
                  || exists p | p in ur.role.value.permissions ::
                       s == p.resource + ":" + p.action && ':' !in p.resource)
  {
    if u.HasProtectedRole() {
      var ur :| ur in u.roles && ur.Counts() && ur.role.value.isProtected && ur.role.value.ordinal == 0;
    } else {
      CanExactly(u, s);
      if ur, p :| ur in u.roles && ur.Counts() && p in ur.role.value.permissions && p.Name() == s
                  && ':' !in p.resource {
        assert s == p.resource + ":" + p.action;
      }
      if ur, p :| ur in u.roles && ur.role.Some? && ur.revokedAt.None? && p in ur.role.value.permissions
                  && s == p.resource + ":" + p.action && ':' !in p.resource {
        assert ur.Counts() && p.Name() == s;
      }
    }
  }

  /** A revoked assignment counts for nothing: without it the user has the same power, names and grants. */
  lemma {:induction false} RevokedCountsForNothing(u: User, ur: UserRole, s: string)
    requires ur.revokedAt.Some?
    ensures var v := u.(roles := u.roles + [ur]);
            && v.Can(s) == u.Can(s) && v.HasProtectedRole() == u.HasProtectedRole()
            && LowestOrdinal(v.roles) == LowestOrdinal(u.roles) && Listed(v.roles) == Listed(u.roles)
  {
    var v := u.(roles := u.roles + [ur]);
    assert v.roles[..|u.roles|] == u.roles;
    assert forall x :: x in v.roles <==> x in u.roles || x == ur;
  }

  /** The permission list and the permission check agree. */
  lemma {:induction false} ListAgreesWithCan(u: User, s: string)
    requires !u.HasProtectedRole() && ColonFree(u)
    ensures s in Distinct(Listed(u.roles)) <==> u.Can(s)
  {
    DistinctHasNoDuplicates(Listed(u.roles));
    ListedExactly(u.roles, s);
    CanExactly(u, s);
  }

  /** The user holds a permission with this name whose resource has no colon. */
  ghost predicate HoldsColonFree(u: User, s: string) {
    exists ur, p | ur in u.roles && ur.Counts() && p in ur.role.value.permissions :: p.Name() == s && ':' !in p.resource
  }

  /**
   * For every user the two agree on a name exactly when: it is listed, for a user with a protected role, whom Can
   * grants everything; it is not listed or also held under a resource without a colon, for any other user.
   */
  lemma {:induction false} AgreementIsExact(u: User, s: string)
    ensures (s in Distinct(Listed(u.roles)) <==> u.Can(s)) <==>
            if u.HasProtectedRole() then s in Listed(u.roles) else s !in Listed(u.roles) || HoldsColonFree(u, s)
  {
    DistinctHasNoDuplicates(Listed(u.roles));
    if !u.HasProtectedRole() {
      ListedExactly(u.roles, s);
      CanExactly(u, s);
    }
  }

  // ---- Scopes ----------------------------------------------------------------------------------

  /** The lookup "this client belongs to this organization"; callers may pass none. */
  type Lookup = Option<(string, string) -> bool>

  predicate Belongs(lookup: Lookup, client: string, org: string) {
    lookup.Some? && lookup.value(client, org)
  }

  /** CanActInScope; None where the source dereferences a nil organization. */
  function CanActInScope(u: User, permission: string, targetOrg: Option<string>, targetClient: Option<string>,
                         lookup: Lookup): Option<bool> {
    if !u.Can(permission) then Some(false)
    else if u.client.Some? then
      if targetClient.None? || targetClient.value != u.client.value then Some(false)
      else if targetOrg.Some? && u.org.None? then None
      else Some(!(targetOrg.Some? && targetOrg.value != u.org.value))
    else if u.org.Some? then
      if targetOrg.None? && targetClient.None? then Some(false)
      else if targetOrg.Some? && targetOrg.value != u.org.value then Some(false)
      else Some(targetClient.Some? ==> Belongs(lookup, targetClient.value, u.org.value))
    else Some(true)
  }

  predicate May(u: User, permission: string, targetOrg: Option<string>, targetClient: Option<string>, lookup: Lookup) {
    CanActInScope(u, permission, targetOrg, targetClient, lookup) == Some(true)
  }

  /** The call panics exactly for a client user without organization, on that very client with an organization given. */
  lemma {:induction false} PanicsExactly(u: User, permission: string, targetOrg: Option<string>,
                                         targetClient: Option<string>, lookup: Lookup)
    ensures CanActInScope(u, permission, targetOrg, targetClient, lookup).None? <==>
            u.Can(permission) && u.client.Some? && u.org.None? && targetClient == u.client && targetOrg.Some?
  {}

  // The tree: the platform at the root, organizations below it, each client below its organization.

  datatype Node = Platform | Organization(org: string) | Client(client: string, owner: string)

  function Parent(n: Node): Node {
    match n
    case Client(_, o) => Organization(o)
    case _ => Platform
  }

  predicate Inside(n: Node, root: Node)
    decreases if n.Client? then 2 else if n.Organization? then 1 else 0
  {
    n == root || (n != Platform && Inside(Parent(n), root))
  }

  lemma {:induction false} InsideCases(n: Node, root: Node)
    ensures Inside(n, root) <==> n == root || root == Platform || (n.Client? && root == Organization(n.owner))
  {
    if n.Client? {
      assert Inside(Organization(n.owner), root) <==> root == Organization(n.owner) || Inside(Platform, root);
    }
  }

  lemma {:induction false} InsideIsAnOrder(a: Node, b: Node, c: Node)
    ensures Inside(a, a)
    ensures Inside(a, b) && Inside(b, c) ==> Inside(a, c)
    ensures Inside(a, b) && Inside(b, a) ==> a == b
  {
    InsideCases(a, a);
    InsideCases(a, b);
    InsideCases(b, c);
    InsideCases(a, c);
    InsideCases(b, a);
  }

  ghost predicate Consistent(lookup: Lookup) {
    lookup.Some? && forall c, o, p :: lookup.value(c, o) && lookup.value(c, p) ==> o == p
  }

  /** The node that a pair of target identifiers stands for; the organization may be left out beside a client. */
  predicate Denotes(org: Option<string>, client: Option<string>, lookup: Lookup, n: Node) {
    match n
    case Platform => org.None? && client.None?
    case Organization(o) => org == Some(o) && client.None?
    case Client(c, o) => client == Some(c) && Belongs(lookup, c, o) && (org.Some? ==> org.value == o)
  }

  /** The user's own scope, where a client scope carries the organization that owns the client. */
  predicate ScopedAt(u: User, lookup: Lookup, n: Node) {
    Denotes(u.org, u.client, lookup, n) && (u.client.Some? ==> u.org.Some?)
  }

  /** CanActInScope is permission plus tree containment. */
  lemma {:induction false} ActsInsideItsSubtree(u: User, permission: string, org: Option<string>,
                                                client: Option<string>, lookup: Lookup,
                                                own: Node, target: Node)
    requires Consistent(lookup) && ScopedAt(u, lookup, own) && Denotes(org, client, lookup, target)
    ensures May(u, permission, org, client, lookup) <==> u.Can(permission) && Inside(target, own)
    ensures CanActInScope(u, permission, org, client, lookup).Some?
  {
    InsideCases(target, own);
  }

  /** So the nodes a user may act on are closed downward, and a user higher up may do at least as much. */
  lemma {:induction false} ScopeIsMonotone(u: User, v: User, permission: string, lookup: Lookup, own: Node, lower: Node,
                                           org: Option<string>, client: Option<string>, target: Node,
                                           subOrg: Option<string>, subClient: Option<string>, sub: Node)
    requires Consistent(lookup) && ScopedAt(u, lookup, own) && ScopedAt(v, lookup, lower)
    requires Denotes(org, client, lookup, target) && Denotes(subOrg, subClient, lookup, sub)
    requires u.Can(permission) && Inside(lower, own) && Inside(sub, target)
    requires May(v, permission, org, client, lookup)
    ensures May(v, permission, subOrg, subClient, lookup)
    ensures May(u, permission, subOrg, subClient, lookup)
  {
    ActsInsideItsSubtree(v, permission, org, client, lookup, lower, target);
    ActsInsideItsSubtree(v, permission, subOrg, subClient, lookup, lower, sub);
    ActsInsideItsSubtree(u, permission, subOrg, subClient, lookup, own, sub);
    InsideIsAnOrder(sub, target, lower);
    InsideIsAnOrder(sub, lower, own);
  }

  // ---- Managing users ----------------------------------------------------------------------------

  /** The common body of CanManageUser (users:update) and CanResetPassword (users:reset_password); None is a panic. */
  function Governs(u: User, target: User, permission: string, lookup: Lookup): Option<bool> {
    if target.HasProtectedRole() then Some(false)
    else if !u.Can(permission) then Some(false)
    else if LowestOrdinal(u.roles) > LowestOrdinal(target.roles) then Some(false)
    else CanActInScope(u, permission, target.org, target.client, lookup)
  }

  /** Managing and resetting panic exactly on a target of the own client that has an organization. */
  lemma {:induction false} GoverningPanicsExactly(u: User, target: User, permission: string, lookup: Lookup)
    ensures Governs(u, target, permission, lookup).None? <==>
            && !target.HasProtectedRole() && u.Can(permission) && LowestOrdinal(u.roles) <= LowestOrdinal(target.roles)
            && u.client.Some? && u.org.None? && target.client == u.client && target.org.Some?
  {
    PanicsExactly(u, permission, target.org, target.client, lookup);
  }

  predicate CanManageUser(u: User, target: User, lookup: Lookup) {
    Governs(u, target, "users:update", lookup) == Some(true)
  }

  predicate CanResetPassword(u: User, target: User, lookup: Lookup) {
    Governs(u, target, "users:reset_password", lookup) == Some(true)
  }

  ghost predicate Placed(u: User, lookup: Lookup) {
    exists n :: ScopedAt(u, lookup, n)
  }

  /** One user governs another exactly when it stands over it in permission, power and scope. */
  lemma {:induction false} GovernsExactly(u: User, v: User, permission: string, lookup: Lookup, own: Node, target: Node)
    requires Consistent(lookup) && ScopedAt(u, lookup, own) && ScopedAt(v, lookup, target)
    ensures Governs(u, v, permission, lookup) == Some(true) <==>
            && !v.HasProtectedRole() && u.Can(permission)
            && LowestOrdinal(u.roles) <= LowestOrdinal(v.roles) && Inside(target, own)
  {
    ActsInsideItsSubtree(u, permission, v.org, v.client, lookup, own, target);
  }

  /** Managing asks for users:update and resetting for users:reset_password, beside what both ask for. */
  lemma {:induction false} ManagingAndResettingExactly(u: User, v: User, lookup: Lookup, own: Node, target: Node)
    requires Consistent(lookup) && ScopedAt(u, lookup, own) && ScopedAt(v, lookup, target)
    ensures CanManageUser(u, v, lookup) <==>
            && !v.HasProtectedRole() && u.Can("users:update")
            && LowestOrdinal(u.roles) <= LowestOrdinal(v.roles) && Inside(target, own)
    ensures CanResetPassword(u, v, lookup) <==>
            && !v.HasProtectedRole() && u.Can("users:reset_password")
            && LowestOrdinal(u.roles) <= LowestOrdinal(v.roles) && Inside(target, own)
  {
    GovernsExactly(u, v, "users:update", lookup, own, target);
    GovernsExactly(u, v, "users:reset_password", lookup, own, target);
  }

  lemma {:induction false} GovernsIsTransitive(u: User, v: User, w: User, permission: string, lookup: Lookup)
    requires Consistent(lookup) && Placed(u, lookup) && Placed(v, lookup) && Placed(w, lookup)
    requires Governs(u, v, permission, lookup) == Some(true) && Governs(v, w, permission, lookup) == Some(true)
    ensures Governs(u, w, permission, lookup) == Some(true)
  {
    var a :| ScopedAt(u, lookup, a);
    var b :| ScopedAt(v, lookup, b);
    var c :| ScopedAt(w, lookup, c);
    GovernsExactly(u, v, permission, lookup, a, b);
    GovernsExactly(v, w, permission, lookup, b, c);
    GovernsExactly(u, w, permission, lookup, a, c);
    InsideIsAnOrder(c, b, a);
  }

  lemma {:induction false} ManagingAndResettingAreTransitive(u: User, v: User, w: User, lookup: Lookup)
    requires Consistent(lookup) && Placed(u, lookup) && Placed(v, lookup) && Placed(w, lookup)
    ensures CanManageUser(u, v, lookup) && CanManageUser(v, w, lookup) ==> CanManageUser(u, w, lookup)
    ensures CanResetPassword(u, v, lookup) && CanResetPassword(v, w, lookup) ==> CanResetPassword(u, w, lookup)
  {
    if CanManageUser(u, v, lookup) && CanManageUser(v, w, lookup) {
      GovernsIsTransitive(u, v, w, "users:update", lookup);
    }
    if CanResetPassword(u, v, lookup) && CanResetPassword(v, w, lookup) {
      GovernsIsTransitive(u, v, w, "users:reset_password", lookup);
    }
  }

  /** Users who govern each other are peers: same scope, same ordinal, neither protected. */
  lemma {:induction false} MutualGovernorsArePeers(u: User, v: User, permission: string, lookup: Lookup, own: Node,
                                                   other: Node)
    requires Consistent(lookup) && ScopedAt(u, lookup, own) && ScopedAt(v, lookup, other)
    requires Governs(u, v, permission, lookup) == Some(true) && Governs(v, u, permission, lookup) == Some(true)
    ensures own == other && LowestOrdinal(u.roles) == LowestOrdinal(v.roles)
    ensures !u.HasProtectedRole() && !v.HasProtectedRole()
  {
    GovernsExactly(u, v, permission, lookup, own, other);
    GovernsExactly(v, u, permission, lookup, other, own);
    InsideIsAnOrder(own, other, own);
  }

  predicate CanAssignRole(u: User, role: Role) {
    !role.isProtected && u.Can("users:assign_roles") && !(role.ordinal < LowestOrdinal(u.roles))
  }

  /**
   * Exactly the roles that may be assigned: not protected ones, by a user with users:assign_roles, and only roles no
   * stronger than some active role of the user's own, or than no role at all.
   */
  lemma {:induction false} AssigningExactly(u: User, role: Role)
    ensures CanAssignRole(u, role) <==>
            && !role.isProtected && u.Can("users:assign_roles")
            && (role.ordinal >= 100
                || exists ur | ur in u.roles ::
                     ur.role.Some? && ur.revokedAt.None? && ur.role.value.ordinal <= role.ordinal)
  {
    LowestOrdinalIsLeast(u.roles);
    if ur :| ur in u.roles && ur.role.Some? && ur.revokedAt.None? && ur.role.value.ordinal <= role.ordinal {
      assert ur.Counts();
    }
  }

  function WithRole(u: User, id: string, role: Role): User {
    u.(roles := u.roles + [UserRole(id, None, Some(role))])
  }

  /** Assigning a role one may assign never takes a user out of one's reach, nor lifts oneself. */
  lemma {:induction false} AssigningDoesNotEscalate(u: User, v: User, permission: string, lookup: Lookup, id: string,
                                                    role: Role)
    requires CanAssignRole(u, role)
    ensures Governs(u, v, permission, lookup) == Some(true) ==>
            Governs(u, WithRole(v, id, role), permission, lookup) == Some(true)
    ensures LowestOrdinal(WithRole(u, id, role).roles) == LowestOrdinal(u.roles)
    ensures WithRole(u, id, role).HasProtectedRole() == u.HasProtectedRole()
  {
    var granted := UserRole(id, None, Some(role));
    forall x: User ensures WithRole(x, id, role).HasProtectedRole() == x.HasProtectedRole() {
      forall ur ensures ur in WithRole(x, id, role).roles <==> ur in x.roles || ur == granted {}
    }
    assert (u.roles + [granted])[..|u.roles|] == u.roles;
    assert (v.roles + [granted])[..|v.roles|] == v.roles;
  }
}
