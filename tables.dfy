/**
 * The relational tables the core reads and writes: `users`, `applications`, `roles`
 * and `user_app_roles`, with the effect of the SQL statements issued against them.
 * `users`, `applications` and `roles` are keyed by their primary key; `user_app_roles`
 * is a sequence of rows in table order, since nothing in the schema that the code can
 * see forbids two rows for the same (user, application) pair: the code keeps that
 * invariant itself.
 */
module Tables {
  import opened Wrappers

  datatype UserRow = UserRow(
    userId: string,
    email: string,
    name: string,
    googleId: Option<string>,
    picture: Option<string>,
    isActive: bool,
    lastLoginAt: Option<int>)

  datatype AppRow = AppRow(appCode: string, appName: string, appUrl: string, appIcon: Option<string>, isActive: bool)

  datatype RoleRow = RoleRow(roleCode: string, roleName: string)

  datatype AssignmentRow = AssignmentRow(userId: string, appId: string, roleId: string)

  /** The at-most-one-role-per-(user, application) invariant of `user_app_roles`. */
  predicate UniquePairs(rows: seq<AssignmentRow>) {
    forall i, j :: 0 <= i < j < |rows| ==> rows[i].userId != rows[j].userId || rows[i].appId != rows[j].appId
  }

  predicate IsPair(row: AssignmentRow, userId: string, appId: string) {
    row.userId == userId && row.appId == appId
  }

  /** `SELECT * FROM user_app_roles WHERE user_id = $1 AND app_id = $2` returns a row. */
  predicate HasPair(rows: seq<AssignmentRow>, userId: string, appId: string) {
    exists i :: 0 <= i < |rows| && IsPair(rows[i], userId, appId)
  }

  /** The (user, application) -> role relation that the rows stand for; a later row wins. */
  function RoleTable(rows: seq<AssignmentRow>): map<(string, string), string>
    decreases |rows|
  {
    if rows == [] then map[]
    else
      var last := rows[|rows| - 1];
      RoleTable(rows[..|rows| - 1])[(last.userId, last.appId) := last.roleId]
  }

  /** `UPDATE user_app_roles SET role_id = $1 WHERE user_id = $2 AND app_id = $3`. */
  function SetRole(rows: seq<AssignmentRow>, userId: string, appId: string, roleId: string): (r: seq<AssignmentRow>)
    ensures |r| == |rows|
    ensures forall i :: 0 <= i < |rows| ==>
      r[i] == if IsPair(rows[i], userId, appId) then rows[i].(roleId := roleId) else rows[i]
    decreases |rows|
  {
    if rows == [] then []
    else
      var last := rows[|rows| - 1];
      SetRole(rows[..|rows| - 1], userId, appId, roleId)
        + [if IsPair(last, userId, appId) then last.(roleId := roleId) else last]
  }

  /** `DELETE FROM user_app_roles WHERE user_id = $1 AND app_id = $2`. */
  function DeletePair(rows: seq<AssignmentRow>, userId: string, appId: string): (r: seq<AssignmentRow>)
    ensures |r| <= |rows|
    ensures forall i :: 0 <= i < |r| ==> !IsPair(r[i], userId, appId)
    decreases |rows|
  {
    if rows == [] then []
    else
      var last := rows[|rows| - 1];
      var init := DeletePair(rows[..|rows| - 1], userId, appId);
      if IsPair(last, userId, appId) then init else init + [last]
  }

  /** The update reaches the relation only at the pair it names. */
  lemma {:induction false} SetRoleTable(rows: seq<AssignmentRow>, userId: string, appId: string, roleId: string)
    requires HasPair(rows, userId, appId)
    ensures RoleTable(SetRole(rows, userId, appId, roleId)) == RoleTable(rows)[(userId, appId) := roleId]
    decreases |rows|
  {
    var init := rows[..|rows| - 1];
    var last := rows[|rows| - 1];
    assert SetRole(rows, userId, appId, roleId) == SetRole(init, userId, appId, roleId)
      + [if IsPair(last, userId, appId) then last.(roleId := roleId) else last];
    var updated := SetRole(rows, userId, appId, roleId);
    assert updated[..|updated| - 1] == SetRole(init, userId, appId, roleId);
    if HasPair(init, userId, appId) {
      SetRoleTable(init, userId, appId, roleId);
    } else {
      SetRoleUnmatched(init, userId, appId, roleId);
      assert IsPair(last, userId, appId);
    }
  }

  /** Without a matching row the update changes nothing. */
  lemma {:induction false} SetRoleUnmatched(rows: seq<AssignmentRow>, userId: string, appId: string, roleId: string)
    requires !HasPair(rows, userId, appId)
    ensures SetRole(rows, userId, appId, roleId) == rows
  {
    var r := SetRole(rows, userId, appId, roleId);
    forall i | 0 <= i < |rows|
      ensures r[i] == rows[i]
    {
      assert !IsPair(rows[i], userId, appId);
    }
  }

  /** The update keeps one row per pair: it changes no pair, only a role. */
  lemma SetRoleUnique(rows: seq<AssignmentRow>, userId: string, appId: string, roleId: string)
    requires UniquePairs(rows)
    ensures UniquePairs(SetRole(rows, userId, appId, roleId))
  {
    var r := SetRole(rows, userId, appId, roleId);
    forall i, j | 0 <= i < j < |r|
      ensures r[i].userId != r[j].userId || r[i].appId != r[j].appId
    {
      assert r[i].userId == rows[i].userId && r[i].appId == rows[i].appId;
      assert r[j].userId == rows[j].userId && r[j].appId == rows[j].appId;
    }
  }

  /** Deleting a pair removes exactly that pair from the relation. */
  lemma {:induction false} DeletePairTable(rows: seq<AssignmentRow>, userId: string, appId: string)
    ensures RoleTable(DeletePair(rows, userId, appId)) == RoleTable(rows) - {(userId, appId)}
    decreases |rows|
  {
    if rows != [] {
      var init := rows[..|rows| - 1];
      var last := rows[|rows| - 1];
      var key := (last.userId, last.appId);
      DeletePairTable(init, userId, appId);
      var rest := DeletePair(init, userId, appId);
      var before := RoleTable(init);
      assert RoleTable(rows) == before[key := last.roleId];
      if IsPair(last, userId, appId) {
        assert DeletePair(rows, userId, appId) == rest;
        assert before[key := last.roleId] - {key} == before - {key};
      } else {
        assert DeletePair(rows, userId, appId) == rest + [last];
        assert (rest + [last])[..|rest|] == rest;
        assert RoleTable(rest + [last]) == RoleTable(rest)[key := last.roleId];
        assert (before - {(userId, appId)})[key := last.roleId] == before[key := last.roleId] - {(userId, appId)};
      }
    }
  }

  /** The delete keeps exactly the rows of other pairs. */
  lemma {:induction false} DeletePairMembers(rows: seq<AssignmentRow>, userId: string, appId: string)
    ensures forall x :: x in DeletePair(rows, userId, appId) <==> x in rows && !IsPair(x, userId, appId)
    decreases |rows|
  {
    if rows != [] {
      var init := rows[..|rows| - 1];
      var last := rows[|rows| - 1];
      DeletePairMembers(init, userId, appId);
      assert rows == init + [last];
    }
  }

  /** A filter keeps the rows distinct by pair. */
  lemma {:induction false} DeletePairUnique(rows: seq<AssignmentRow>, userId: string, appId: string)
    requires UniquePairs(rows)
    ensures UniquePairs(DeletePair(rows, userId, appId))
    decreases |rows|
  {
    if rows != [] {
      var init := rows[..|rows| - 1];
      var last := rows[|rows| - 1];
      DeletePairUnique(init, userId, appId);
      DeletePairMembers(init, userId, appId);
      var rest := DeletePair(init, userId, appId);
      if !IsPair(last, userId, appId) {
        var r := rest + [last];
        assert DeletePair(rows, userId, appId) == r;
        forall i | 0 <= i < |rest|
          ensures rest[i].userId != last.userId || rest[i].appId != last.appId
        {
          assert rest[i] in init;
          var k :| 0 <= k < |init| && init[k] == rest[i];
          assert rows[k] == rest[i];
        }
      }
    }
  }

  /** Appending a row for a pair that has none keeps one row per pair. */
  lemma AppendUnique(rows: seq<AssignmentRow>, row: AssignmentRow)
    requires UniquePairs(rows)
    requires !HasPair(rows, row.userId, row.appId)
    ensures UniquePairs(rows + [row])
  {
    var r := rows + [row];
    forall i, j | 0 <= i < j < |r|
      ensures r[i].userId != r[j].userId || r[i].appId != r[j].appId
    {
      if j == |rows| {
        assert !IsPair(rows[i], row.userId, row.appId);
      }
    }
  }

  /** One row of the join `user_app_roles ⋈ applications ⋈ roles` that `getUserApps` selects. */
  datatype AccessRow = AccessRow(
    appCode: string,
    appName: string,
    appUrl: string,
    appIcon: Option<string>,
    roleCode: string,
    roleName: string)

  /** The assignment joins an active application and an existing role for `userId`. */
  predicate Selected(row: AssignmentRow, applications: map<string, AppRow>, roles: map<string, RoleRow>, userId: string) {
    row.userId == userId && row.appId in applications && applications[row.appId].isActive && row.roleId in roles
  }

  function Joined(app: AppRow, role: RoleRow): AccessRow {
    AccessRow(app.appCode, app.appName, app.appUrl, app.appIcon, role.roleCode, role.roleName)
  }

  /**
   * The rows of `SELECT ... FROM user_app_roles JOIN applications JOIN roles
   * WHERE user_id = $1 AND a.is_active = true`, in assignment-table order.
   */
  function AccessRows(assignments: seq<AssignmentRow>, applications: map<string, AppRow>, roles: map<string, RoleRow>, userId: string): (rows: seq<AccessRow>)
    ensures |rows| <= |assignments|
    decreases |assignments|
  {
    if assignments == [] then []
    else
      var rest := AccessRows(assignments[..|assignments| - 1], applications, roles, userId);
      var last := assignments[|assignments| - 1];
      if Selected(last, applications, roles, userId)
      then rest + [Joined(applications[last.appId], roles[last.roleId])]
      else rest
  }

  /** Every selected row stems from an assignment of `userId` to an active application. */
  lemma {:induction false} AccessRowsSound(assignments: seq<AssignmentRow>, applications: map<string, AppRow>, roles: map<string, RoleRow>, userId: string)
    ensures forall r :: r in AccessRows(assignments, applications, roles, userId) ==>
      exists i :: (0 <= i < |assignments| && Selected(assignments[i], applications, roles, userId)
        && r == Joined(applications[assignments[i].appId], roles[assignments[i].roleId]))
    decreases |assignments|
  {
    if assignments != [] {
      var init := assignments[..|assignments| - 1];
      AccessRowsSound(init, applications, roles, userId);
      forall r | r in AccessRows(assignments, applications, roles, userId)
        ensures exists i :: (0 <= i < |assignments| && Selected(assignments[i], applications, roles, userId)
          && r == Joined(applications[assignments[i].appId], roles[assignments[i].roleId]))
      {
        if r in AccessRows(init, applications, roles, userId) {
          var i :| 0 <= i < |init| && Selected(init[i], applications, roles, userId)
            && r == Joined(applications[init[i].appId], roles[init[i].roleId]);
          assert assignments[i] == init[i];
        } else {
          assert assignments[|assignments| - 1] == assignments[|init|];
        }
      }
    }
  }

  /** Every assignment of `userId` to an active application with a known role is selected. */
  lemma {:induction false} AccessRowsComplete(assignments: seq<AssignmentRow>, applications: map<string, AppRow>, roles: map<string, RoleRow>, userId: string)
    ensures forall i :: 0 <= i < |assignments| && Selected(assignments[i], applications, roles, userId) ==>
      Joined(applications[assignments[i].appId], roles[assignments[i].roleId]) in AccessRows(assignments, applications, roles, userId)
    decreases |assignments|
  {
    if assignments != [] {
      var init := assignments[..|assignments| - 1];
      AccessRowsComplete(init, applications, roles, userId);
      forall i | 0 <= i < |assignments| && Selected(assignments[i], applications, roles, userId)
        ensures Joined(applications[assignments[i].appId], roles[assignments[i].roleId]) in AccessRows(assignments, applications, roles, userId)
      {
        if i < |init| {
          assert init[i] == assignments[i];
        }
      }
    }
  }

  /** Every `users` row is stored under its own primary key. */
  predicate Keyed(users: map<string, UserRow>) {
    forall id :: id in users ==> users[id].userId == id
  }

  /** Storing a row under its own key keeps the table keyed. */
  lemma KeyedStore(users: map<string, UserRow>, row: UserRow)
    requires Keyed(users)
    ensures Keyed(users[row.userId := row])
  {
  }

  /** The database the handlers share; `defaultIsActive` is the `users.is_active` column default. */
  class Database {
    var users: map<string, UserRow>
    var applications: map<string, AppRow>
    var roles: map<string, RoleRow>
    var assignments: seq<AssignmentRow>
    const defaultIsActive: bool

    ghost predicate Valid()
      reads this
    {
      && Keyed(users)
      && UniquePairs(assignments)
    }

    constructor (users: map<string, UserRow>, applications: map<string, AppRow>, roles: map<string, RoleRow>,
                 assignments: seq<AssignmentRow>, defaultIsActive: bool)
      requires Keyed(users)
      requires UniquePairs(assignments)
      ensures Valid()
      ensures this.users == users && this.applications == applications && this.roles == roles
      ensures this.assignments == assignments && this.defaultIsActive == defaultIsActive
    {
      this.users := users;
      this.applications := applications;
      this.roles := roles;
      this.assignments := assignments;
      this.defaultIsActive := defaultIsActive;
    }

    /** An INSERT or UPDATE of one `users` row, which stays under its own key. */
    method StoreUser(row: UserRow)
      requires Valid()
      modifies this
      ensures Valid()
      ensures users == old(users)[row.userId := row]
      ensures applications == old(applications) && roles == old(roles) && assignments == old(assignments)
    {
      KeyedStore(users, row);
      users := users[row.userId := row];
    }

    /** The effect of an INSERT, UPDATE or DELETE on `user_app_roles` that keeps one row per pair. */
    method StoreAssignments(rows: seq<AssignmentRow>)
      requires Valid()
      requires UniquePairs(rows)
      modifies this
      ensures Valid()
      ensures assignments == rows
      ensures users == old(users) && applications == old(applications) && roles == old(roles)
    {
      assignments := rows;
    }

    /** What `getUserApps`'s query returns for `userId` in the current state. */
    function AccessRowsFor(userId: string): seq<AccessRow>
      reads this
    {
      AccessRows(assignments, applications, roles, userId)
    }
  }
}
