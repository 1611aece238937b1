/** The loop that turns the rows of the roles-and-permissions join into user roles. */
module RoleRows {
  import opened Rbac
  import opened Wrappers

  /** A row of the left join: the columns of an assignment and its role, and permission columns that may be null. */
  datatype Row = Row(assignment: string, revokedAt: Option<int>, roleId: string, ordinal: int, isProtected: bool,
                     permissionId: Option<string>, resource: Option<string>, action: Option<string>) {
    /** The row's permission; none when the left join found nothing. */
    function Permissions(): seq<Permission> {
      if permissionId.Some? && resource.Some? && action.Some? then
        [Permission(permissionId.value, resource.value, action.value)]
      else []
    }

    function Assignment(permissions: seq<Permission>): UserRole {
      UserRole(assignment, revokedAt, Some(Role(roleId, ordinal, isProtected, permissions)))
    }
  }

  function Extended(ur: UserRole, more: seq<Permission>): UserRole {
    match ur.role
    case None => ur
    case Some(role) => ur.(role := Some(role.(permissions := role.permissions + more)))
  }

  /** The place of an assignment, or the length when it is not there yet. */
  function Place(userRoles: seq<UserRole>, id: string): (i: nat)
    ensures i <= |userRoles|
    ensures i < |userRoles| ==> userRoles[i].id == id
    ensures forall j | 0 <= j < i :: userRoles[j].id != id
  {
    if userRoles == [] then 0
    else
      var rest := userRoles[..|userRoles| - 1];
      var i := Place(rest, id);
      if i < |rest| then i else if userRoles[|rest|].id == id then |rest| else |userRoles|
  }

  function AddRow(userRoles: seq<UserRole>, row: Row): seq<UserRole> {
    var i := Place(userRoles, row.assignment);
    if i < |userRoles| then userRoles[i := Extended(userRoles[i], row.Permissions())]
    else userRoles + [row.Assignment(row.Permissions())]
  }

  function Grouped(rows: seq<Row>): seq<UserRole> {
    if rows == [] then [] else AddRow(Grouped(rows[..|rows| - 1]), rows[|rows| - 1])
  }

  predicate Loaded(userRoles: seq<UserRole>) {
    forall ur | ur in userRoles :: ur.role.Some?
  }

  predicate DistinctIds(userRoles: seq<UserRole>) {
    forall i, j | 0 <= i < j < |userRoles| :: userRoles[i].id != userRoles[j].id
  }

  // ---- The loop itself ----------------------------------------------------------------------------

  /** The map and the order that the loop keeps stand for `userRoles`. */
  ghost predicate Tracks(byId: map<string, UserRole>, order: seq<string>, userRoles: seq<UserRole>) {
    && |order| == |userRoles|
    && (forall i | 0 <= i < |order| ::
          order[i] in byId && byId[order[i]] == userRoles[i] && userRoles[i].id == order[i])
    && (forall id | id in byId :: id in order)
    && (forall i | 0 <= i < |userRoles| :: userRoles[i].role.Some?)
    && DistinctIds(userRoles)
  }

  lemma {:induction false} TracksNew(byId: map<string, UserRole>, order: seq<string>, userRoles: seq<UserRole>,
                                     ur: UserRole)
    requires Tracks(byId, order, userRoles) && ur.role.Some? && ur.id !in byId
    ensures Tracks(byId[ur.id := ur], order + [ur.id], userRoles + [ur])
  {}

  lemma {:induction false} TracksSeen(byId: map<string, UserRole>, order: seq<string>, userRoles: seq<UserRole>,
                                      i: nat, ur: UserRole)
    requires Tracks(byId, order, userRoles) && i < |userRoles| && ur.role.Some? && ur.id == userRoles[i].id
    ensures Tracks(byId[ur.id := ur], order, userRoles[i := ur])
  {}

  lemma {:induction false} PlaceInMap(byId: map<string, UserRole>, order: seq<string>, userRoles: seq<UserRole>,
                                      id: string)
    requires Tracks(byId, order, userRoles)
    ensures Place(userRoles, id) < |userRoles| <==> id in byId
    ensures id in byId ==> userRoles[Place(userRoles, id)] == byId[id]
  {
    if id in byId {
      var j :| 0 <= j < |order| && order[j] == id;
      assert userRoles[j].id == id;
    }
  }

  lemma {:induction false} ExtendedByNothing(ur: UserRole)
    ensures Extended(ur, []) == ur
  {
    if ur.role.Some? {
      assert ur.role.value.permissions + [] == ur.role.value.permissions;
    }
  }

  /** One turn of the row loop: get or create the assignment, then append the row's permission if it has one. */
  method TakeRow(byId: map<string, UserRole>, order: seq<string>, row: Row, ghost userRoles: seq<UserRole>)
    returns (nowById: map<string, UserRole>, nowOrder: seq<string>)
    requires Tracks(byId, order, userRoles)
    ensures Tracks(nowById, nowOrder, AddRow(userRoles, row))
  {
    nowById, nowOrder := byId, order;
    var id := row.assignment;
    TracksRow(byId, order, userRoles, row);
    if id !in byId {
      nowById := nowById[id := row.Assignment([])];
      nowOrder := nowOrder + [id];
    }
    ExtendedByNothing(nowById[id]);
    if row.permissionId.Some? && row.resource.Some? && row.action.Some? {
      nowById := nowById[id := Extended(nowById[id], row.Permissions())];
    }
    assert nowById == byId[id := nowById[id]];
  }

  lemma {:induction false} TracksRow(byId: map<string, UserRole>, order: seq<string>, userRoles: seq<UserRole>,
                                     row: Row)
    requires Tracks(byId, order, userRoles)
    ensures var id := row.assignment;
            var ur := if id in byId then byId[id] else row.Assignment([]);
            Tracks(byId[id := Extended(ur, row.Permissions())], if id in byId then order else order + [id],
                   AddRow(userRoles, row))
  {
    var id := row.assignment;
    PlaceInMap(byId, order, userRoles, id);
    if id in byId {
      TracksSeen(byId, order, userRoles, Place(userRoles, id), Extended(byId[id], row.Permissions()));
    } else {
      assert [] + row.Permissions() == row.Permissions();
      TracksNew(byId, order, userRoles, Extended(row.Assignment([]), row.Permissions()));
    }
  }

  /** The row loop of GetUserWithRoles. */
  method GroupRows(rows: seq<Row>) returns (userRoles: seq<UserRole>)
    ensures userRoles == Grouped(rows)
  {
    var byId: map<string, UserRole>, order := map[], [];
    for k := 0 to |rows|
      invariant Tracks(byId, order, Grouped(rows[..k]))
    {
      byId, order := TakeRow(byId, order, rows[k], Grouped(rows[..k]));
      assert rows[..k + 1][..k] == rows[..k];
    }
    assert rows[..|rows|] == rows;
    userRoles := InOrder(byId, order, Grouped(rows));
  }

  /** Its second loop: the assignments in the order kept. */
  method InOrder(byId: map<string, UserRole>, order: seq<string>, ghost tracked: seq<UserRole>)
    returns (userRoles: seq<UserRole>)
    requires Tracks(byId, order, tracked)
    ensures userRoles == tracked
  {
    userRoles := [];
    for i := 0 to |order|
      invariant userRoles == tracked[..i]
    {
      userRoles := userRoles + [byId[order[i]]];
    }
  }

  // ---- What comes out --------------------------------------------------------------------------------

  function PermissionsFor(rows: seq<Row>, id: string): seq<Permission> {
    if rows == [] then []
    else
      var last := rows[|rows| - 1];
      PermissionsFor(rows[..|rows| - 1], id) + if last.assignment == id then last.Permissions() else []
  }

  /** The assignments in the order in which the rows first mention them. */
  function Ids(rows: seq<Row>): seq<string> {
    if rows == [] then []
    else
      var rest, id := Ids(rows[..|rows| - 1]), rows[|rows| - 1].assignment;
      if id in rest then rest else rest + [id]
  }

  function IdsOf(userRoles: seq<UserRole>): seq<string> {
    seq(|userRoles|, i requires 0 <= i < |userRoles| => userRoles[i].id)
  }

  ghost predicate Faithful(ur: UserRole, rows: seq<Row>) {
    && ur.role.Some? && ur.role.value.permissions == PermissionsFor(rows, ur.id)
    && exists r | r in rows :: r.assignment == ur.id && ur == r.Assignment(PermissionsFor(rows, ur.id))
  }

  lemma {:induction false} OneMoreRow(ur: UserRole, rows: seq<Row>, row: Row)
    requires Faithful(ur, rows)
    ensures Faithful(if ur.id == row.assignment then Extended(ur, row.Permissions()) else ur, rows + [row])
  {
    var all := rows + [row];
    assert all[..|rows|] == rows;
    assert PermissionsFor(all, ur.id) ==
           PermissionsFor(rows, ur.id) + if ur.id == row.assignment then row.Permissions() else [];
    var r :| r in rows && r.assignment == ur.id && ur == r.Assignment(PermissionsFor(rows, ur.id));
    assert r in all;
  }

  lemma {:induction false} NoPermissionsYet(rows: seq<Row>, id: string)
    requires id !in Ids(rows)
    ensures PermissionsFor(rows, id) == []
  {
    if rows != [] {
      NoPermissionsYet(rows[..|rows| - 1], id);
    }
  }

  /**
   * Every assignment comes out once, in the order of its first row, with the columns of its rows and exactly
   * its non-null permissions in row order.
   */
  lemma {:induction false} GroupingIsFaithful(rows: seq<Row>)
    ensures IdsOf(Grouped(rows)) == Ids(rows) && DistinctIds(Grouped(rows))
    ensures forall i | 0 <= i < |Grouped(rows)| :: Faithful(Grouped(rows)[i], rows)
  {
    if rows != [] {
      var rest, row := rows[..|rows| - 1], rows[|rows| - 1];
      assert rows == rest + [row];
      GroupingIsFaithful(rest);
      AddedRowIsFaithful(Grouped(rest), rest, row);
      AddedRowIsInOrder(Grouped(rest), rest, row);
      assert Grouped(rows) == AddRow(Grouped(rest), row);
    }
  }

  lemma {:induction false} NewRowIsFaithful(rest: seq<Row>, row: Row)
    requires row.assignment !in Ids(rest)
    ensures Faithful(row.Assignment(row.Permissions()), rest + [row])
  {
    var rows := rest + [row];
    assert rows[..|rest|] == rest;
    NoPermissionsYet(rest, row.assignment);
    assert PermissionsFor(rows, row.assignment) == [] + row.Permissions() == row.Permissions();
    assert rows[|rest|] == row;
  }

  lemma {:induction false} AddedRowIsFaithful(before: seq<UserRole>, rest: seq<Row>, row: Row)
    requires IdsOf(before) == Ids(rest) && DistinctIds(before)
    requires forall i | 0 <= i < |before| :: Faithful(before[i], rest)
    ensures forall i | 0 <= i < |AddRow(before, row)| :: Faithful(AddRow(before, row)[i], rest + [row])
  {
    var after := AddRow(before, row);
    forall i | 0 <= i < |before| ensures Faithful(after[i], rest + [row]) {
      OneMoreRow(before[i], rest, row);
      assert IdsOf(before)[i] == before[i].id;
    }
    if Place(before, row.assignment) == |before| {
      assert row.assignment !in IdsOf(before);
      NewRowIsFaithful(rest, row);
    }
  }

  lemma {:induction false} AddedRowIsInOrder(before: seq<UserRole>, rest: seq<Row>, row: Row)
    requires IdsOf(before) == Ids(rest) && DistinctIds(before) && Loaded(before)
    ensures IdsOf(AddRow(before, row)) == Ids(rest + [row]) && DistinctIds(AddRow(before, row))
  {
    var place, after := Place(before, row.assignment), AddRow(before, row);
    assert (rest + [row])[..|rest|] == rest;
    assert forall i | 0 <= i < |before| :: Ids(rest)[i] == before[i].id == after[i].id;
    assert place < |before| ==> Ids(rest)[place] == row.assignment;
  }

  // ---- The join undone ----------------------------------------------------------------------------

  function RowFor(ur: UserRole, p: Option<Permission>): Row
    requires ur.role.Some?
  {
    var role := ur.role.value;
    match p
    case None => Row(ur.id, ur.revokedAt, role.id, role.ordinal, role.isProtected, None, None, None)
    case Some(p) =>
      Row(ur.id, ur.revokedAt, role.id, role.ordinal, role.isProtected, Some(p.id), Some(p.resource), Some(p.action))
  }

  function WithPermissions(ur: UserRole, ps: seq<Permission>): UserRole
    requires ur.role.Some?
  {
    ur.(role := Some(ur.role.value.(permissions := ps)))
  }

  /** What the left join yields for one assignment: a row per permission, or one row of nulls. */
  function RowsOf(ur: UserRole, ps: seq<Permission>): seq<Row>
    requires ur.role.Some?
  {
    if ps == [] then [RowFor(ur, None)]
    else if |ps| == 1 then [RowFor(ur, Some(ps[0]))]
    else RowsOf(ur, ps[..|ps| - 1]) + [RowFor(ur, Some(ps[|ps| - 1]))]
  }

  function Flatten(userRoles: seq<UserRole>): seq<Row>
    requires Loaded(userRoles)
  {
    if userRoles == [] then []
    else
      var last := userRoles[|userRoles| - 1];
      Flatten(userRoles[..|userRoles| - 1]) + RowsOf(last, last.role.value.permissions)
  }

  lemma {:induction false} OneMorePermission(before: seq<UserRole>, ur: UserRole, row: Row)
    requires Place(before, ur.id) == |before| && row.assignment == ur.id
    ensures AddRow(before + [ur], row) == before + [Extended(ur, row.Permissions())]
  {
    var all := before + [ur];
    assert all[|before|].id == ur.id;
    assert forall i | 0 <= i < |before| :: all[i] == before[i];
  }

  lemma {:induction false} GroupedAppendsOne(rows: seq<Row>, ur: UserRole, ps: seq<Permission>)
    requires ur.role.Some? && Place(Grouped(rows), ur.id) == |Grouped(rows)| && |ps| <= 1
    ensures Grouped(rows + RowsOf(ur, ps)) == Grouped(rows) + [WithPermissions(ur, ps)]
  {
    var all := rows + RowsOf(ur, ps);
    assert all[..|all| - 1] == rows;
    assert ps != [] ==> ps == [ps[0]];
  }

  lemma {:induction false} GroupedAppends(rows: seq<Row>, ur: UserRole, ps: seq<Permission>)
    requires ur.role.Some? && Place(Grouped(rows), ur.id) == |Grouped(rows)|
    ensures Grouped(rows + RowsOf(ur, ps)) == Grouped(rows) + [WithPermissions(ur, ps)]
  {
    if |ps| <= 1 {
      GroupedAppendsOne(rows, ur, ps);
    } else {
      var init, last := ps[..|ps| - 1], ps[|ps| - 1];
      GroupedAppends(rows, ur, init);
      var before, row := rows + RowsOf(ur, init), RowFor(ur, Some(last));
      assert rows + RowsOf(ur, ps) == before + [row];
      assert (before + [row])[..|before|] == before;
      OneMorePermission(Grouped(rows), WithPermissions(ur, init), row);
      assert init + [last] == ps;
    }
  }

  lemma {:induction false} LastIsNew(userRoles: seq<UserRole>)
    requires userRoles != [] && DistinctIds(userRoles)
    ensures var rest := userRoles[..|userRoles| - 1]; Place(rest, userRoles[|userRoles| - 1].id) == |rest|
  {
    var rest, last := userRoles[..|userRoles| - 1], userRoles[|userRoles| - 1];
    forall i | 0 <= i < |rest| ensures rest[i].id != last.id {
      assert rest[i] == userRoles[i];
    }
  }

  /** Grouping the join of any assignments gives those assignments back, in their order. */
  lemma {:induction false} GroupingUndoesTheJoin(userRoles: seq<UserRole>)
    requires Loaded(userRoles) && DistinctIds(userRoles)
    ensures Grouped(Flatten(userRoles)) == userRoles
  {
    if userRoles != [] {
      var rest, last := userRoles[..|userRoles| - 1], userRoles[|userRoles| - 1];
      GroupingUndoesTheJoin(rest);
      LastIsNew(userRoles);
      var ps := last.role.value.permissions;
      GroupedAppends(Flatten(rest), last, ps);
      assert WithPermissions(last, ps) == last && rest + [last] == userRoles;
    }
  }

  // ---- The grouping undone ------------------------------------------------------------------------

  predicate SameHead(a: Row, b: Row) {
    a.revokedAt == b.revokedAt && a.roleId == b.roleId && a.ordinal == b.ordinal && a.isProtected == b.isProtected
  }

  /**
   * What a left join sorted by assignment looks like: the rows of an assignment stand together and agree on its
   * columns, and a row without a permission is all null there and the only one of its assignment.
   */
  ghost predicate JoinRows(rows: seq<Row>) {
    && (forall i, j, k | 0 <= i < j < k < |rows| && rows[i].assignment == rows[k].assignment ::
          rows[j].assignment == rows[i].assignment)
    && (forall i, j | 0 <= i < j < |rows| && rows[i].assignment == rows[j].assignment ::
          SameHead(rows[i], rows[j]) && rows[i].Permissions() != [] && rows[j].Permissions() != [])
    && (forall r | r in rows && r.Permissions() == [] :: r.permissionId.None? && r.resource.None? && r.action.None?)
  }

  /** In such rows the assignment of the last row is the last one grouped. */
  lemma {:induction false} LastId(rows: seq<Row>)
    requires JoinRows(rows) && rows != []
    ensures Ids(rows) != [] && Ids(rows)[|Ids(rows)| - 1] == rows[|rows| - 1].assignment
  {
    var init, last := rows[..|rows| - 1], rows[|rows| - 1];
    if last.assignment in Ids(init) {
      var i := IdComesFromRow(init, last.assignment);
      assert rows[i].assignment == last.assignment;
      assert init[|init| - 1].assignment == last.assignment;
      LastId(init);
    }
  }

  lemma {:induction false} IdComesFromRow(rows: seq<Row>, id: string) returns (i: nat)
    requires id in Ids(rows)
    ensures i < |rows| && rows[i].assignment == id
  {
    var init, last := rows[..|rows| - 1], rows[|rows| - 1];
    if last.assignment == id {
      i := |rows| - 1;
    } else {
      i := IdComesFromRow(init, id);
    }
  }

  lemma {:induction false} GroupedIsLoaded(rows: seq<Row>)
    ensures Loaded(Grouped(rows))
  {
    GroupingIsFaithful(rows);
  }

  lemma {:induction false} RowsOfSameHead(a: UserRole, b: UserRole, ps: seq<Permission>)
    requires a.role.Some? && b.role.Some? && WithPermissions(a, []) == WithPermissions(b, [])
    ensures RowsOf(a, ps) == RowsOf(b, ps)
  {
    if |ps| > 1 { RowsOfSameHead(a, b, ps[..|ps| - 1]); }
  }

  /** A further row of the last assignment is a further row of its flattening. */
  lemma {:induction false} FlattenExtended(ur: UserRole, p: Permission)
    requires ur.role.Some? && ur.role.value.permissions != []
    ensures
      var more := Extended(ur, [p]);
      RowsOf(more, more.role.value.permissions) == RowsOf(ur, ur.role.value.permissions) + [RowFor(ur, Some(p))]
  {
    var ps, more := ur.role.value.permissions, Extended(ur, [p]);
    assert (ps + [p])[..|ps|] == ps;
    RowsOfSameHead(more, ur, ps);
  }

  lemma {:induction false} NewAssignmentFlattens(row: Row)
    requires row.Permissions() == [] ==> row.permissionId.None? && row.resource.None? && row.action.None?
    ensures RowsOf(row.Assignment(row.Permissions()), row.Permissions()) == [row]
  {}

  lemma {:induction false} StandTogether(init: seq<Row>, row: Row, k: nat)
    requires JoinRows(init + [row]) && k < |init| && init[k].assignment == row.assignment
    ensures init[|init| - 1].assignment == row.assignment
  {
    var rows := init + [row];
    assert rows[k] == init[k] && rows[|init|] == row && rows[|init| - 1] == init[|init| - 1];
  }

  /** In such rows, when the last row's assignment was seen before, it is the last one grouped. */
  lemma {:induction false} SeenIsLast(init: seq<Row>, row: Row)
    requires JoinRows(init + [row]) && Place(Grouped(init), row.assignment) < |Grouped(init)|
    ensures
      var g := Grouped(init);
      g != [] && g[|g| - 1].id == row.assignment && Place(g, row.assignment) == |g| - 1 && Faithful(g[|g| - 1], init)
  {
    var g := Grouped(init);
    GroupingIsFaithful(init);
    var i := Place(g, row.assignment);
    assert IdsOf(g)[i] == g[i].id == row.assignment;
    var k := IdComesFromRow(init, row.assignment);
    StandTogether(init, row, k);
    ShorterJoin(init, row);
    LastId(init);
    assert IdsOf(g)[|g| - 1] == g[|g| - 1].id;
  }

  /** Then it has a permission already, and agrees with the row on every other column. */
  lemma {:induction false} SeenHasPermissions(init: seq<Row>, row: Row, ur: UserRole)
    requires JoinRows(init + [row]) && Faithful(ur, init) && ur.id == row.assignment
    ensures ur.role.Some? && ur.role.value.permissions != [] && row.Permissions() != []
    ensures RowFor(ur, Some(row.Permissions()[0])) == row
  {
    var rows := init + [row];
    var r :| r in init && r.assignment == ur.id && ur == r.Assignment(PermissionsFor(init, ur.id));
    var m :| 0 <= m < |init| && init[m] == r;
    assert rows[m] == r && rows[|init|] == row;
    assert SameHead(r, row) && r.Permissions() != [];
    PermissionsForExactly(init, ur.id, r.Permissions()[0]);
  }

  lemma {:induction false} ShorterJoin(init: seq<Row>, row: Row)
    requires JoinRows(init + [row])
    ensures JoinRows(init)
  {
    var rows := init + [row];
    assert forall i | 0 <= i < |init| :: rows[i] == init[i];
    assert forall r | r in init :: r in rows;
  }

  /** Flattening what was grouped gives the rows of the join back. */
  lemma {:induction false} FlatteningUndoesTheGrouping(rows: seq<Row>)
    requires JoinRows(rows)
    ensures Loaded(Grouped(rows)) && Flatten(Grouped(rows)) == rows
  {
    GroupedIsLoaded(rows);
    if rows != [] {
      var init, row := rows[..|rows| - 1], rows[|rows| - 1];
      assert rows == init + [row];
      ShorterJoin(init, row);
      FlatteningUndoesTheGrouping(init);
      OneMoreFlattens(init, row);
    }
  }

  lemma {:induction false} OneMoreFlattens(init: seq<Row>, row: Row)
    requires JoinRows(init + [row]) && Loaded(Grouped(init))
    ensures Loaded(AddRow(Grouped(init), row))
    ensures Flatten(AddRow(Grouped(init), row)) == Flatten(Grouped(init)) + [row]
  {
    var g := Grouped(init);
    if Place(g, row.assignment) < |g| {
      SeenIsLast(init, row);
      SeenHasPermissions(init, row, g[|g| - 1]);
      ExtendingFlattens(g, row);
    } else {
      assert row in init + [row];
      AppendingFlattens(g, row);
    }
  }

  lemma {:induction false} AppendingFlattens(g: seq<UserRole>, row: Row)
    requires Loaded(g) && Place(g, row.assignment) == |g|
    requires row.Permissions() == [] ==> row.permissionId.None? && row.resource.None? && row.action.None?
    ensures Loaded(AddRow(g, row)) && Flatten(AddRow(g, row)) == Flatten(g) + [row]
  {
    var h := AddRow(g, row);
    assert h[..|h| - 1] == g;
    NewAssignmentFlattens(row);
  }

  lemma {:induction false} ExtendingFlattens(g: seq<UserRole>, row: Row)
    requires Loaded(g) && g != [] && Place(g, row.assignment) == |g| - 1
    requires g[|g| - 1].role.value.permissions != [] && row.Permissions() != []
    requires RowFor(g[|g| - 1], Some(row.Permissions()[0])) == row
    ensures Loaded(AddRow(g, row)) && Flatten(AddRow(g, row)) == Flatten(g) + [row]
  {
    var h, p := AddRow(g, row), row.Permissions()[0];
    assert row.Permissions() == [p];
    assert h[..|h| - 1] == g[..|g| - 1] && h[|h| - 1] == Extended(g[|g| - 1], [p]);
    FlattenExtended(g[|g| - 1], p);
  }

  // ---- What the user can do -----------------------------------------------------------------------

  lemma {:induction false} PermissionsForExactly(rows: seq<Row>, id: string, p: Permission)
    ensures p in PermissionsFor(rows, id) <==> exists r | r in rows :: r.assignment == id && p in r.Permissions()
  {
    if rows != [] {
      var rest, last := rows[..|rows| - 1], rows[|rows| - 1];
      PermissionsForExactly(rest, id, p);
      assert rows == rest + [last];
    }
  }

  lemma {:induction false} RowsCovered(rows: seq<Row>, r: Row)
    requires r in rows
    ensures exists ur | ur in Grouped(rows) :: ur.id == r.assignment
    decreases |rows|
  {
    GroupingIsFaithful(rows);
    IdsCover(rows, r);
    var i :| 0 <= i < |Ids(rows)| && Ids(rows)[i] == r.assignment;
    assert IdsOf(Grouped(rows))[i] == Grouped(rows)[i].id;
  }

  lemma {:induction false} IdsCover(rows: seq<Row>, r: Row)
    requires r in rows
    ensures r.assignment in Ids(rows)
  {
    var rest, last := rows[..|rows| - 1], rows[|rows| - 1];
    if r != last {
      IdsCover(rest, r);
    }
  }

  /**
   * A user loaded through the join (which selects unrevoked assignments only) can do what the rows say: without
   * a protected role, exactly the resource:action of some row whose resource has no colon.
   */
  lemma {:induction false} CanExactlyWhatTheRowsSay(u: User, rows: seq<Row>, s: string)
    requires u.roles == Grouped(rows) && !u.HasProtectedRole()
    requires forall r | r in rows :: r.revokedAt.None?
    ensures u.Can(s) <==> exists r, p | r in rows && p in r.Permissions() :: p.Name() == s && ':' !in p.resource
  {
    GroupingIsFaithful(rows);
    CanExactly(u, s);
    forall ur, p | ur in u.roles
      ensures ur.Counts()
      ensures p in ur.role.value.permissions <==> exists r | r in rows :: r.assignment == ur.id && p in r.Permissions()
    {
      assert Faithful(ur, rows);
      PermissionsForExactly(rows, ur.id, p);
    }
    if r, p :| r in rows && p in r.Permissions() && p.Name() == s && ':' !in p.resource {
      RowsCovered(rows, r);
      var ur :| ur in u.roles && ur.id == r.assignment;
      assert p in ur.role.value.permissions;
    }
  }
}
