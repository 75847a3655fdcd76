/**
 * The administrator endpoints that change the tables: activating and deactivating a
 * user, assigning and removing an application role, and creating a user by hand, with
 * the validators they rely on (the UUID and e-mail patterns, the name bounds, the
 * admin gate).
 */
module AdminController {
  import opened Wrappers
  import opened Http
  import opened JsText
  import opened Tables
  import opened AuthService
  import opened AuthMiddleware

  // ---------------------------------------------------------------- UUIDs

  predicate IsHexDigit(c: char) {
    '0' <= c <= '9' || 'a' <= c <= 'f' || 'A' <= c <= 'F'
  }

  predicate AllHex(s: string) {
    forall i :: 0 <= i < |s| ==> IsHexDigit(s[i])
  }

  /** The group lengths of `UUID_REGEX`, in order. */
  const UUID_GROUPS: seq<nat> := [8, 4, 4, 4, 12]

  /**
   * A pattern of hexadecimal groups joined by `-`, anchored at both ends: `s` is
   * `groups[0]` hex digits, then for each further group a `-` and that many digits.
   */
  predicate MatchesGroups(s: string, groups: seq<nat>)
    decreases |groups|
  {
    if groups == [] then s == []
    else
      var n := groups[0];
      && |s| >= n
      && AllHex(s[..n])
      && if |groups| == 1 then |s| == n
         else |s| > n && s[n] == '-' && MatchesGroups(s[n + 1..], groups[1..])
  }

  /** `isValidUUID(value)`: `UUID_REGEX.test(value)`, the flag `i` admitting either letter case. */
  predicate IsValidUuid(s: string) {
    MatchesGroups(s, UUID_GROUPS)
  }

  /** The positions of the four dashes in a 36-character UUID. */
  predicate IsDashPosition(i: int) {
    i == 8 || i == 13 || i == 18 || i == 23
  }

  /** The shape of a UUID stated position by position. */
  predicate UuidShape(s: string) {
    && |s| == 36
    && forall i :: 0 <= i < |s| ==> if IsDashPosition(i) then s[i] == '-' else IsHexDigit(s[i])
  }

  lemma {:induction false} LastGroup(s: string, n: nat)
    ensures MatchesGroups(s, [n]) <==> |s| == n && AllHex(s)
  {
    if |s| == n {
      assert s[..n] == s;
    }
  }

  lemma {:induction false} DashGroup(s: string, n: nat, rest: seq<nat>)
    requires rest != []
    ensures MatchesGroups(s, [n] + rest) <==>
      |s| > n && AllHex(s[..n]) && s[n] == '-' && MatchesGroups(s[n + 1..], rest)
  {
    assert ([n] + rest)[0] == n;
    assert ([n] + rest)[1..] == rest;
  }

  /** The regular expression accepts exactly the strings of UUID shape: length 36, dashes at 8, 13, 18, 23, hex elsewhere. */
  lemma {:induction false} UuidMatchesShape(s: string)
    ensures IsValidUuid(s) <==> UuidShape(s)
  {
    assert UUID_GROUPS == [8] + [4, 4, 4, 12];
    assert [4, 4, 4, 12] == [4] + [4, 4, 12];
    assert [4, 4, 12] == [4] + [4, 12];
    assert [4, 12] == [4] + [12];
    DashGroup(s, 8, [4, 4, 4, 12]);
    if |s| > 8 {
      var s1 := s[9..];
      DashGroup(s1, 4, [4, 4, 12]);
      if |s1| > 4 {
        var s2 := s1[5..];
        DashGroup(s2, 4, [4, 12]);
        if |s2| > 4 {
          var s3 := s2[5..];
          DashGroup(s3, 4, [12]);
          if |s3| > 4 {
            var s4 := s3[5..];
            LastGroup(s4, 12);
            assert s4 == s[24..];
            assert s3 == s[19..];
            assert s2 == s[14..];
            if UuidShape(s) {
              assert AllHex(s[..8]) by {
                forall i | 0 <= i < 8 ensures IsHexDigit(s[..8][i]) { assert !IsDashPosition(i); }
              }
              assert AllHex(s1[..4]) by {
                forall i | 0 <= i < 4 ensures IsHexDigit(s1[..4][i]) { assert s1[..4][i] == s[9 + i]; }
              }
              assert AllHex(s2[..4]) by {
                forall i | 0 <= i < 4 ensures IsHexDigit(s2[..4][i]) { assert s2[..4][i] == s[14 + i]; }
              }
              assert AllHex(s3[..4]) by {
                forall i | 0 <= i < 4 ensures IsHexDigit(s3[..4][i]) { assert s3[..4][i] == s[19 + i]; }
              }
              assert AllHex(s4) by {
                forall i | 0 <= i < |s4| ensures IsHexDigit(s4[i]) { assert s4[i] == s[24 + i]; }
              }
            }
            if IsValidUuid(s) {
              forall i | 0 <= i < |s|
                ensures if IsDashPosition(i) then s[i] == '-' else IsHexDigit(s[i])
              {
                if i < 8 { assert s[i] == s[..8][i]; }
                else if 9 <= i < 13 { assert s[i] == s1[..4][i - 9]; }
                else if 14 <= i < 18 { assert s[i] == s2[..4][i - 14]; }
                else if 19 <= i < 23 { assert s[i] == s3[..4][i - 19]; }
                else if 24 <= i { assert s[i] == s4[i - 24]; }
              }
            }
          }
        }
      }
    }
  }

  /** The flag `i`: a string is a valid UUID exactly when its lower-case form is. */
  lemma UuidIgnoresCase(s: string)
    ensures IsValidUuid(Lower(s)) <==> IsValidUuid(s)
  {
    UuidMatchesShape(s);
    UuidMatchesShape(Lower(s));
    var t := Lower(s);
    forall i | 0 <= i < |s|
      ensures IsHexDigit(t[i]) <==> IsHexDigit(s[i])
      ensures t[i] == '-' <==> s[i] == '-'
    {
    }
  }

  /** A body value passed to `isValidUUID`: only a string can match. */
  predicate IsValidUuidValue(v: JsValue) {
    v.Str? && IsValidUuid(v.s)
  }

  // ---------------------------------------------------------------- e-mail and name

  /** The characters of `[^\s@]`. */
  predicate Plain(c: char) {
    !IsWhitespace(c) && c != '@'
  }

  predicate AllPlain(t: string) {
    forall i :: 0 <= i < |t| ==> Plain(t[i])
  }

  /**
   * `EMAIL_REGEX` read literally: a non-empty run of plain characters, `@`, another
   * non-empty run, `.`, and a last non-empty run.
   */
  ghost predicate EmailRegex(s: string) {
    exists i, k :: EmailSplit(s, i, k)
  }

  /** `s` matches `EMAIL_REGEX` with its `@` at `i` and the matched `.` at `k`. */
  predicate EmailSplit(s: string, i: int, k: int) {
    && 0 < i && i + 1 < k < |s| - 1 && s[i] == '@' && s[k] == '.'
    && AllPlain(s[..i]) && AllPlain(s[i + 1..k]) && AllPlain(s[k + 1..])
  }

  /** Every character other than those at `i` and `k` is plain. */
  predicate PlainExcept(s: string, i: int, k: int) {
    forall j :: 0 <= j < |s| && j != i && j != k ==> Plain(s[j])
  }

  /** The position of the first `c` in `s`, if any. */
  function FirstIndexOf(s: string, c: char): (r: Option<nat>)
    ensures r.Some? ==> r.value < |s| && s[r.value] == c && c !in s[..r.value]
    ensures r.None? ==> c !in s
  {
    if s == [] then None
    else if s[0] == c then Some(0)
    else
      match FirstIndexOf(s[1..], c)
      case None => None
      case Some(k) =>
        assert s[..k + 1] == [s[0]] + s[1..][..k];
        Some(k + 1)
  }

  /** A `.` with at least one character on each side. */
  predicate DotInside(d: string) {
    exists k :: 0 < k < |d| - 1 && d[k] == '.'
  }

  /**
   * The e-mail check as a scan: no whitespace, a single `@` that is not the first
   * character, and a `.` strictly inside the part after it.
   */
  predicate EmailMatches(s: string) {
    && NoWhitespace(s)
    && match FirstIndexOf(s, '@')
       case None => false
       case Some(i) => 0 < i && '@' !in s[i + 1..] && DotInside(s[i + 1..])
  }

  /** Pointwise plainness of a stretch of `s` is plainness of that slice. */
  lemma AllPlainSlice(s: string, lo: int, hi: int)
    requires 0 <= lo <= hi <= |s|
    requires forall j :: lo <= j < hi ==> Plain(s[j])
    ensures AllPlain(s[lo..hi])
  {
    var t := s[lo..hi];
    forall j | 0 <= j < |t| ensures Plain(t[j]) {
      assert t[j] == s[lo + j];
    }
  }

  lemma PlainInSlice(s: string, lo: int, hi: int, j: int)
    requires 0 <= lo <= j < hi <= |s|
    requires AllPlain(s[lo..hi])
    ensures Plain(s[j])
  {
    assert s[j] == s[lo..hi][j - lo];
  }

  /** A split of the pattern is a `@` and a `.` in place with plain characters everywhere else. */
  lemma EmailSplitPointwise(s: string, i: int, k: int)
    requires 0 < i && i + 1 < k < |s| - 1
    ensures EmailSplit(s, i, k) <==> s[i] == '@' && s[k] == '.' && PlainExcept(s, i, k)
  {
    assert s[..i] == s[0..i];
    assert s[k + 1..] == s[k + 1..|s|];
    if EmailSplit(s, i, k) {
      forall j | 0 <= j < |s| && j != i && j != k ensures Plain(s[j]) {
        if j < i { PlainInSlice(s, 0, i, j); }
        else if j < k { PlainInSlice(s, i + 1, k, j); }
        else { PlainInSlice(s, k + 1, |s|, j); }
      }
    }
    if PlainExcept(s, i, k) {
      AllPlainSlice(s, 0, i);
      AllPlainSlice(s, i + 1, k);
      AllPlainSlice(s, k + 1, |s|);
    }
  }

  /** Every string the scan accepts matches `EMAIL_REGEX`. */
  lemma EmailMatchesToRegex(s: string)
    requires EmailMatches(s)
    ensures EmailRegex(s)
  {
    var i := FirstIndexOf(s, '@').value;
    var d := s[i + 1..];
    var k' :| 0 < k' < |d| - 1 && d[k'] == '.';
    var k := i + 1 + k';
    assert s[k] == d[k'];
    forall j | 0 <= j < |s| && j != i && j != k ensures Plain(s[j]) {
      if j < i {
        assert s[j] == s[..i][j];
      } else {
        assert s[j] == d[j - i - 1];
      }
    }
    EmailSplitPointwise(s, i, k);
  }

  /** Every string `EMAIL_REGEX` matches is accepted by the scan. */
  lemma RegexToEmailMatches(s: string)
    requires EmailRegex(s)
    ensures EmailMatches(s)
  {
    var i, k :| EmailSplit(s, i, k);
    EmailSplitPointwise(s, i, k);
    assert NoWhitespace(s);
    assert FirstIndexOf(s, '@') == Some(i);
    var d := s[i + 1..];
    assert d[k - i - 1] == '.';
    forall j | 0 <= j < |d| ensures d[j] != '@' {
      assert d[j] == s[i + 1 + j];
    }
  }

  /** The scan accepts exactly what `EMAIL_REGEX` accepts. */
  lemma EmailMatchesRegex(s: string)
    ensures EmailMatches(s) <==> EmailRegex(s)
  {
    if EmailMatches(s) {
      EmailMatchesToRegex(s);
    }
    if EmailRegex(s) {
      RegexToEmailMatches(s);
    }
  }

  /** A request-body value that passes `!email || typeof email !== 'string' || !EMAIL_REGEX.test(email)`. */
  predicate IsValidEmailValue(v: JsValue) {
    Truthy(v) && v.Str? && EmailMatches(v.s)
  }

  /**
   * A request-body value that passes the name check `name.trim().length < 2 ||
   * name.length > 255`, with `.length` counting UTF-16 code units.
   */
  predicate IsValidNameValue(v: JsValue) {
    Truthy(v) && v.Str? && !(Utf16Length(Trim(v.s)) < 2 || Utf16Length(v.s) > 255)
  }

  /** The stored (trimmed) name of an accepted name value is 2 to 255 code units long. */
  lemma StoredNameBounds(v: JsValue)
    requires IsValidNameValue(v)
    ensures 2 <= Utf16Length(Trim(v.s)) <= 255
  {
    Utf16LengthTrim(v.s);
  }

  /**
   * `email.toLowerCase().trim()`: the input with its whitespace ends removed and its
   * letters lowered, so no capital letter is left and no whitespace at either end.
   */
  function NormalizeEmail(email: string): (r: string)
    ensures r == Lower(Trim(email))
    ensures forall i :: 0 <= i < |r| ==> !IsAsciiUpper(r[i])
    ensures r == [] || (!IsWhitespace(r[0]) && !IsWhitespace(r[|r| - 1]))
  {
    LowerTrimCommute(email);
    LowerLeavesNoCapital(Trim(email));
    Trim(Lower(email))
  }

  lemma LowerLeavesNoCapital(s: string)
    ensures forall i :: 0 <= i < |Lower(s)| ==> !IsAsciiUpper(Lower(s)[i])
  {
  }

  lemma PlainLower(c: char)
    ensures Plain(LowerChar(c)) <==> Plain(c)
  {
  }

  /**
   * An accepted e-mail has no whitespace to trim, so normalising only lowers its
   * letters, and the normalised form is itself accepted and already normal.
   */
  lemma NormalizedEmailValid(email: string)
    requires EmailMatches(email)
    ensures NormalizeEmail(email) == Lower(email)
    ensures EmailMatches(NormalizeEmail(email))
    ensures NormalizeEmail(NormalizeEmail(email)) == NormalizeEmail(email)
  {
    LowerKeepsWhitespace(email);
    TrimNoWhitespace(Lower(email));
    LowerEmailMatches(email);
    LowerIdempotent(email);
    LowerKeepsWhitespace(Lower(email));
    TrimNoWhitespace(Lower(Lower(email)));
  }

  /** Lowering the letters of an accepted e-mail keeps it accepted. */
  lemma LowerEmailMatches(email: string)
    requires EmailMatches(email)
    ensures EmailMatches(Lower(email))
  {
    EmailMatchesToRegex(email);
    LowerKeepsRegex(email);
    RegexToEmailMatches(Lower(email));
  }

  lemma LowerKeepsRegex(email: string)
    requires EmailRegex(email)
    ensures EmailRegex(Lower(email))
  {
    var low := Lower(email);
    var i, k :| EmailSplit(email, i, k);
    EmailSplitPointwise(email, i, k);
    forall j | 0 <= j < |low| && j != i && j != k ensures Plain(low[j]) {
      PlainLower(email[j]);
    }
    EmailSplitPointwise(low, i, k);
    assert EmailSplit(low, i, k);
  }

  // ---------------------------------------------------------------- the admin gate

  /** `isAdmin(req)`: the request has a user, and some application grants that user the role `admin`. */
  predicate IsAdmin(user: Option<Payload>) {
    user.Some? && "admin" in user.value.apps.Values
  }

  /** The gate is `requireRole(['admin'])` evaluated inside the handler. */
  lemma IsAdminIsRequireRole(user: Option<Payload>)
    ensures IsAdmin(user) <==> RequireRole(user, ["admin"]).Proceed?
  {
    if user.Some? && RequireRole(user, ["admin"]).Proceed? {
      var app :| app in user.value.apps && user.value.apps[app] in ["admin"];
      assert user.value.apps[app] in user.value.apps.Values;
    }
  }

  // ---------------------------------------------------------------- role assignment

  /** `assignAppRole`'s statements: UPDATE the existing pair's role, or INSERT a new row. */
  function Upsert(rows: seq<AssignmentRow>, userId: string, appId: string, roleId: string): seq<AssignmentRow> {
    if HasPair(rows, userId, appId) then SetRole(rows, userId, appId, roleId)
    else rows + [AssignmentRow(userId, appId, roleId)]
  }

  /** As a relation: the pair now maps to the new role, and every other pair keeps its role. */
  lemma UpsertTable(rows: seq<AssignmentRow>, userId: string, appId: string, roleId: string)
    ensures RoleTable(Upsert(rows, userId, appId, roleId)) == RoleTable(rows)[(userId, appId) := roleId]
  {
    if HasPair(rows, userId, appId) {
      SetRoleTable(rows, userId, appId, roleId);
    } else {
      var r := rows + [AssignmentRow(userId, appId, roleId)];
      assert r[..|r| - 1] == rows;
    }
  }

  /** The upsert keeps at most one row per pair, and leaves exactly one for the assigned pair, with the new role. */
  lemma UpsertExactlyOne(rows: seq<AssignmentRow>, userId: string, appId: string, roleId: string)
    requires UniquePairs(rows)
    ensures HasPair(Upsert(rows, userId, appId, roleId), userId, appId)
    ensures UniquePairs(Upsert(rows, userId, appId, roleId))
    ensures var r := Upsert(rows, userId, appId, roleId);
      forall i, j :: 0 <= i < |r| && 0 <= j < |r| && IsPair(r[i], userId, appId) && IsPair(r[j], userId, appId) ==> i == j
    ensures var r := Upsert(rows, userId, appId, roleId);
      forall i :: 0 <= i < |r| && IsPair(r[i], userId, appId) ==> r[i].roleId == roleId
  {
    if HasPair(rows, userId, appId) {
      SetRoleUnique(rows, userId, appId, roleId);
      var i :| 0 <= i < |rows| && IsPair(rows[i], userId, appId);
      assert IsPair(SetRole(rows, userId, appId, roleId)[i], userId, appId);
    } else {
      AppendUnique(rows, AssignmentRow(userId, appId, roleId));
      var r := rows + [AssignmentRow(userId, appId, roleId)];
      assert IsPair(r[|rows|], userId, appId);
    }
  }

  /** Assigning the same role twice leaves the table as one assignment does. */
  lemma UpsertIdempotent(rows: seq<AssignmentRow>, userId: string, appId: string, roleId: string)
    requires UniquePairs(rows)
    ensures Upsert(Upsert(rows, userId, appId, roleId), userId, appId, roleId) == Upsert(rows, userId, appId, roleId)
  {
    UpsertExactlyOne(rows, userId, appId, roleId);
    var once := Upsert(rows, userId, appId, roleId);
    var twice := SetRole(once, userId, appId, roleId);
    assert |twice| == |once|;
    forall i | 0 <= i < |once| ensures twice[i] == once[i] {
    }
  }

  /** Removing an absent pair, or removing twice, leaves the table unchanged. */
  lemma {:induction false} DeletePairAbsent(rows: seq<AssignmentRow>, userId: string, appId: string)
    requires !HasPair(rows, userId, appId)
    ensures DeletePair(rows, userId, appId) == rows
    decreases |rows|
  {
    if rows != [] {
      var init := rows[..|rows| - 1];
      assert !HasPair(init, userId, appId) by {
        forall i | 0 <= i < |init| ensures !IsPair(init[i], userId, appId) { assert init[i] == rows[i]; }
      }
      DeletePairAbsent(init, userId, appId);
      assert !IsPair(rows[|rows| - 1], userId, appId);
      assert rows == init + [rows[|rows| - 1]];
    }
  }

  lemma DeletePairIdempotent(rows: seq<AssignmentRow>, userId: string, appId: string)
    ensures DeletePair(DeletePair(rows, userId, appId), userId, appId) == DeletePair(rows, userId, appId)
  {
    var once := DeletePair(rows, userId, appId);
    assert !HasPair(once, userId, appId);
    DeletePairAbsent(once, userId, appId);
  }

  // ---------------------------------------------------------------- handlers

  /** `users` with the active flag of `userId` set, if that user exists (`UPDATE ... WHERE user_id = $2`). */
  function SetActive(users: map<string, UserRow>, userId: string, active: bool): map<string, UserRow> {
    if userId in users then users[userId := users[userId].(isActive := active)] else users
  }

  /** PATCH /api/admin/users/:userId/status. */
  method ToggleUserStatus(db: Database, user: Option<Payload>, userId: string, isActive: JsValue) returns (reply: Reply<string>)
    requires db.Valid()
    modifies db
    ensures db.Valid()
    ensures db.applications == old(db.applications) && db.roles == old(db.roles) && db.assignments == old(db.assignments)
    ensures !IsAdmin(user) ==> reply == Fail(403, "Admin access required") && db.users == old(db.users)
    ensures IsAdmin(user) && !IsValidUuid(userId) ==> reply == Fail(400, "Invalid user ID format") && db.users == old(db.users)
    ensures IsAdmin(user) && IsValidUuid(userId) && !isActive.Bool? ==>
      reply == Fail(400, "is_active must be a boolean") && db.users == old(db.users)
    ensures IsAdmin(user) && IsValidUuid(userId) && isActive.Bool? ==>
      && reply == Ok(if isActive.b then "User activated successfully" else "User deactivated successfully")
      && db.users == SetActive(old(db.users), userId, isActive.b)
  {
    if !IsAdmin(user) {
      return Fail(403, "Admin access required");
    }
    if !IsValidUuid(userId) {
      return Fail(400, "Invalid user ID format");
    }
    if !isActive.Bool? {
      return Fail(400, "is_active must be a boolean");
    }
    if userId in db.users {
      db.StoreUser(db.users[userId].(isActive := isActive.b));
    }
    reply := Ok(if isActive.b then "User activated successfully" else "User deactivated successfully");
  }

  /** Toggling touches only the target user's active flag: every other row, and every other column, is kept. */
  lemma SetActiveOnlyTarget(users: map<string, UserRow>, userId: string, active: bool)
    ensures var r := SetActive(users, userId, active);
      && r.Keys == users.Keys
      && (forall id :: id in users && id != userId ==> r[id] == users[id])
      && (userId in users ==> r[userId].isActive == active && r[userId] == users[userId].(isActive := active))
  {
  }

  /** POST /api/admin/users/:userId/apps. */
  method AssignAppRole(db: Database, user: Option<Payload>, userId: string, appId: JsValue, roleId: JsValue) returns (reply: Reply<string>)
    requires db.Valid()
    modifies db
    ensures db.Valid()
    ensures db.users == old(db.users) && db.applications == old(db.applications) && db.roles == old(db.roles)
    ensures !IsAdmin(user) ==> reply == Fail(403, "Admin access required") && db.assignments == old(db.assignments)
    ensures IsAdmin(user) && !(IsValidUuid(userId) && IsValidUuidValue(appId) && IsValidUuidValue(roleId)) ==>
      reply == Fail(400, "Invalid ID format") && db.assignments == old(db.assignments)
    ensures IsAdmin(user) && IsValidUuid(userId) && IsValidUuidValue(appId) && IsValidUuidValue(roleId) ==>
      && reply == Ok("App role assigned successfully")
      && db.assignments == Upsert(old(db.assignments), userId, appId.s, roleId.s)
      && RoleTable(db.assignments) == RoleTable(old(db.assignments))[(userId, appId.s) := roleId.s]
  {
    if !IsAdmin(user) {
      return Fail(403, "Admin access required");
    }
    if !IsValidUuid(userId) || !IsValidUuidValue(appId) || !IsValidUuidValue(roleId) {
      return Fail(400, "Invalid ID format");
    }
    UpsertExactlyOne(db.assignments, userId, appId.s, roleId.s);
    UpsertTable(db.assignments, userId, appId.s, roleId.s);
    if HasPair(db.assignments, userId, appId.s) {
      db.StoreAssignments(SetRole(db.assignments, userId, appId.s, roleId.s));
    } else {
      db.StoreAssignments(db.assignments + [AssignmentRow(userId, appId.s, roleId.s)]);
    }
    reply := Ok("App role assigned successfully");
  }

  /** DELETE /api/admin/users/:userId/apps/:appId. */
  method RemoveAppAccess(db: Database, user: Option<Payload>, userId: string, appId: string) returns (reply: Reply<string>)
    requires db.Valid()
    modifies db
    ensures db.Valid()
    ensures db.users == old(db.users) && db.applications == old(db.applications) && db.roles == old(db.roles)
    ensures !IsAdmin(user) ==> reply == Fail(403, "Admin access required") && db.assignments == old(db.assignments)
    ensures IsAdmin(user) && !(IsValidUuid(userId) && IsValidUuid(appId)) ==>
      reply == Fail(400, "Invalid ID format") && db.assignments == old(db.assignments)
    ensures IsAdmin(user) && IsValidUuid(userId) && IsValidUuid(appId) ==>
      && reply == Ok("App access removed successfully")
      && db.assignments == DeletePair(old(db.assignments), userId, appId)
      && RoleTable(db.assignments) == RoleTable(old(db.assignments)) - {(userId, appId)}
  {
    if !IsAdmin(user) {
      return Fail(403, "Admin access required");
    }
    if !IsValidUuid(userId) || !IsValidUuid(appId) {
      return Fail(400, "Invalid ID format");
    }
    DeletePairUnique(db.assignments, userId, appId);
    DeletePairTable(db.assignments, userId, appId);
    db.StoreAssignments(DeletePair(db.assignments, userId, appId));
    reply := Ok("App access removed successfully");
  }

  /** `SELECT user_id FROM users WHERE email = $1` finds a row. */
  predicate EmailTaken(users: map<string, UserRow>, email: string) {
    exists id :: id in users && users[id].email == email
  }

  /** The row `createUser` inserts: normalised e-mail, trimmed name, active, never logged in, no Google account. */
  function CreatedRow(userId: string, email: string, name: string): UserRow {
    UserRow(userId, NormalizeEmail(email), Trim(name), None, None, true, None)
  }

  /** POST /api/admin/users; `newId` is the identifier the database generates for the new row. */
  method CreateUser(db: Database, user: Option<Payload>, email: JsValue, name: JsValue, newId: string) returns (reply: Reply<UserRow>)
    requires db.Valid()
    requires newId !in db.users
    modifies db
    ensures db.Valid()
    ensures db.applications == old(db.applications) && db.roles == old(db.roles) && db.assignments == old(db.assignments)
    ensures reply.Fail? ==> db.users == old(db.users)
    ensures !IsAdmin(user) ==> reply == Fail(403, "Admin access required")
    ensures IsAdmin(user) && !IsValidEmailValue(email) ==> reply == Fail(400, "Valid email is required")
    ensures IsAdmin(user) && IsValidEmailValue(email) && !IsValidNameValue(name) ==>
      reply == Fail(400, "Name must be between 2 and 255 characters")
    ensures IsAdmin(user) && IsValidEmailValue(email) && IsValidNameValue(name) ==>
      if EmailTaken(old(db.users), NormalizeEmail(email.s)) then
        reply == Fail(400, "User with this email already exists")
      else
        && reply == Ok(CreatedRow(newId, email.s, name.s))
        && db.users == old(db.users)[newId := reply.data]
  {
    if !IsAdmin(user) {
      return Fail(403, "Admin access required");
    }
    if !IsValidEmailValue(email) {
      return Fail(400, "Valid email is required");
    }
    if !IsValidNameValue(name) {
      return Fail(400, "Name must be between 2 and 255 characters");
    }
    if EmailTaken(db.users, NormalizeEmail(email.s)) {
      return Fail(400, "User with this email already exists");
    }
    var row := CreatedRow(newId, email.s, name.s);
    db.StoreUser(row);
    reply := Ok(row);
  }

  /**
   * A created user is active, carries a valid lower-case e-mail, and a name of 2 to 255
   * characters; and the same request cannot create a second row for that e-mail.
   */
  lemma CreatedRowWellFormed(users: map<string, UserRow>, newId: string, email: JsValue, name: JsValue)
    requires IsValidEmailValue(email) && IsValidNameValue(name)
    ensures var row := CreatedRow(newId, email.s, name.s);
      && row.isActive
      && row.email == Lower(email.s)
      && EmailMatches(row.email)
      && 2 <= Utf16Length(row.name) <= 255
      && EmailTaken(users[newId := row], NormalizeEmail(email.s))
  {
    NormalizedEmailValid(email.s);
    StoredNameBounds(name);
    var row := CreatedRow(newId, email.s, name.s);
    assert users[newId := row][newId].email == NormalizeEmail(email.s);
  }
}
