/**
 * The authentication routes of the back end: login (which computes the
 * permission list carried by the token), reading the profile, and the
 * profile update, which builds its SQL statement clause by clause.
 * Password comparison is the plain equality of the `WHERE` clause; the
 * token signing itself is not part of this model.
 */
module Auth {
  import opened Wrappers
  import opened JsString
  import Rbac
  import Menus

  // ---------------------------------------------------------------------
  // tables

  /**
   * The columns of a `users` row the routes read. The `role_id` column
   * may be SQL NULL, since the create route binds `body.role_id ?? null`.
   * Here such a row carries an id that no `roles` row and no `role_menu`
   * link has. That behaves the same, because `= ?` bound to NULL matches
   * no row.
   */
  datatype UserRow = UserRow(
    id: int,
    username: string,
    password: string,
    roleId: int,
    nickname: Option<string>,
    avatar: Option<string>)

  /** The columns of a `roles` row the routes read. */
  datatype RoleRow = RoleRow(id: int, value: Option<string>)

  /** `SELECT * FROM users WHERE username = ? AND password = ? ... first()`: the first match. */
  function FindUser(users: seq<UserRow>, username: string, password: string): (r: Option<UserRow>)
    ensures r.None? <==> forall k :: 0 <= k < |users| ==> !(users[k].username == username && users[k].password == password)
    ensures r.Some? ==> exists k :: (0 <= k < |users| && users[k] == r.value
      && r.value.username == username && r.value.password == password
      && forall j :: 0 <= j < k ==> !(users[j].username == username && users[j].password == password))
    decreases |users|
  {
    if |users| == 0 then None
    else if users[0].username == username && users[0].password == password then Some(users[0])
    else
      var r := FindUser(users[1..], username, password);
      if r.Some? then
        var k :| 0 <= k < |users[1..]| && users[1..][k] == r.value
          && forall j :: 0 <= j < k ==> !(users[1..][j].username == username && users[1..][j].password == password);
        assert users[k + 1] == r.value;
        r
      else r
  }

  /**
   * `SELECT * FROM <table> WHERE id = ? ... first()`: the first row whose
   * id is `id`, for the `users` and the `roles` table alike.
   */
  function FirstById<R>(rows: seq<R>, idOf: R -> int, id: int): (r: Option<R>)
    ensures r.None? <==> forall k :: 0 <= k < |rows| ==> idOf(rows[k]) != id
    ensures r.Some? ==> r.value in rows && idOf(r.value) == id
    ensures forall k :: 0 <= k < |rows| && idOf(rows[k]) == id && (forall j :: 0 <= j < k ==> idOf(rows[j]) != id) ==>
      r == Some(rows[k])
    decreases |rows|
  {
    if |rows| == 0 then None
    else if idOf(rows[0]) == id then Some(rows[0])
    else
      var r := FirstById(rows[1..], idOf, id);
      r
  }

  function UserId(u: UserRow): int { u.id }

  function RoleId(r: RoleRow): int { r.id }

  /**
   * The `permission` column of every row of `role_menu JOIN menus` for the
   * role: role links in table order, each joined with the menus of that id.
   */
  function JoinedPermissions(roleMenu: seq<Menus.RoleMenu>, menus: seq<Menus.Row>, roleId: int): seq<Option<string>>
    decreases |roleMenu|
  {
    if |roleMenu| == 0 then []
    else
      var link := roleMenu[0];
      (if link.roleId == roleId then PermissionsOfMenu(menus, link.menuId) else [])
        + JoinedPermissions(roleMenu[1..], menus, roleId)
  }

  function PermissionsOfMenu(menus: seq<Menus.Row>, menuId: int): seq<Option<string>>
    decreases |menus|
  {
    if |menus| == 0 then []
    else (if menus[0].id == menuId then [menus[0].permission] else []) + PermissionsOfMenu(menus[1..], menuId)
  }

  // ---------------------------------------------------------------------
  // permission aggregation

  /** `.filter(Boolean).flatMap(p => p.split(','))`: the comma pieces of every non-empty column. */
  function Pieces(columns: seq<Option<string>>): seq<string>
    decreases |columns|
  {
    if |columns| == 0 then []
    else
      (if columns[0].Some? && columns[0].value != "" then Split(columns[0].value, ',') else [])
        + Pieces(columns[1..])
  }

  /** `Array.from(new Set(xs))`: each value once, where it first occurs. */
  function Dedupe(xs: seq<string>): seq<string>
    decreases |xs|
  {
    if |xs| == 0 then []
    else
      var front := Dedupe(xs[..|xs| - 1]);
      var x := xs[|xs| - 1];
      if x in front then front else front + [x]
  }

  /** The permission list of a role that is not `super_admin`. */
  function AggregatePermissions(columns: seq<Option<string>>): seq<string> {
    Dedupe(FilterNonEmpty(Pieces(columns)))
  }

  const SuperAdminPermissions := ["*", "user:view", "user:add", "user:edit", "user:delete"]

  ghost predicate Distinct(s: seq<string>) {
    forall i, j :: 0 <= i < j < |s| ==> s[i] != s[j]
  }

  /** The first position of `x` in `s`. */
  function FirstIndex(s: seq<string>, x: string): (i: nat)
    requires x in s
    ensures i < |s| && s[i] == x && forall j :: 0 <= j < i ==> s[j] != x
    decreases |s|
  {
    if s[0] == x then 0 else 1 + FirstIndex(s[1..], x)
  }

  lemma {:induction false} FirstIndexAppend(s: seq<string>, y: string, x: string)
    requires x in s
    ensures FirstIndex(s + [y], x) == FirstIndex(s, x)
  {
    var i := FirstIndex(s, x);
    var i' := FirstIndex(s + [y], x);
    assert (s + [y])[i] == x;
  }

  /** Deduplication keeps every value, adds none, and repeats none. */
  lemma {:induction false} DedupeContents(xs: seq<string>)
    ensures forall x :: x in Dedupe(xs) <==> x in xs
    ensures Distinct(Dedupe(xs))
    decreases |xs|
  {
    if |xs| > 0 {
      var front := xs[..|xs| - 1];
      DedupeContents(front);
      assert xs == front + [xs[|xs| - 1]];
    }
  }

  /** Values come out in the order of their first occurrence. */
  lemma {:induction false} DedupeFirstOccurrenceOrder(xs: seq<string>, i: nat, j: nat)
    requires i < j < |Dedupe(xs)|
    ensures Dedupe(xs)[i] in xs && Dedupe(xs)[j] in xs
    ensures FirstIndex(xs, Dedupe(xs)[i]) < FirstIndex(xs, Dedupe(xs)[j])
    decreases |xs|
  {
    var front := xs[..|xs| - 1];
    var last := xs[|xs| - 1];
    assert xs == front + [last];
    var d := Dedupe(front);
    DedupeContents(front);
    DedupeContents(xs);
    if j < |d| {
      DedupeFirstOccurrenceOrder(front, i, j);
      FirstIndexAppend(front, last, d[i]);
      FirstIndexAppend(front, last, d[j]);
    } else {
      assert Dedupe(xs)[j] == last && last !in front;
      assert Dedupe(xs)[i] == d[i] && d[i] in front;
      FirstIndexAppend(front, last, d[i]);
      assert FirstIndex(xs, last) == |front|;
    }
  }

  /** A list without repeats is left as it is. */
  lemma {:induction false} DedupeDistinct(xs: seq<string>)
    requires Distinct(xs)
    ensures Dedupe(xs) == xs
    decreases |xs|
  {
    if |xs| > 0 {
      var front := xs[..|xs| - 1];
      DedupeDistinct(front);
      assert xs == front + [xs[|xs| - 1]];
    }
  }

  /** A piece comes from a non-empty column exactly when that column's split holds it. */
  lemma {:induction false} PiecesMembers(columns: seq<Option<string>>, x: string)
    requires x != ""
    ensures x in Pieces(columns) <==> exists k :: 0 <= k < |columns| && columns[k].Some? && x in Split(columns[k].value, ',')
    decreases |columns|
  {
    if |columns| > 0 {
      PiecesMembers(columns[1..], x);
      var c := columns[0];
      if c.Some? && c.value == "" {
        assert Split(c.value, ',') == [""];
      }
      if exists k :: 0 <= k < |columns| && columns[k].Some? && x in Split(columns[k].value, ',') {
        var k :| 0 <= k < |columns| && columns[k].Some? && x in Split(columns[k].value, ',');
        if k > 0 {
          assert columns[1..][k - 1] == columns[k];
        }
      }
      if exists k :: 0 <= k < |columns[1..]| && columns[1..][k].Some? && x in Split(columns[1..][k].value, ',') {
        var k :| 0 <= k < |columns[1..]| && columns[1..][k].Some? && x in Split(columns[1..][k].value, ',');
        assert columns[k + 1] == columns[1..][k];
      }
    }
  }

  lemma {:induction false} PiecesHaveNoComma(columns: seq<Option<string>>)
    ensures forall i :: 0 <= i < |Pieces(columns)| ==> ',' !in Pieces(columns)[i]
    decreases |columns|
  {
    if |columns| > 0 {
      PiecesHaveNoComma(columns[1..]);
      var head := if columns[0].Some? && columns[0].value != "" then Split(columns[0].value, ',') else [];
      assert Pieces(columns) == head + Pieces(columns[1..]);
      forall i | 0 <= i < |Pieces(columns)|
        ensures ',' !in Pieces(columns)[i]
      {
        if i >= |head| {
          assert Pieces(columns)[i] == Pieces(columns[1..])[i - |head|];
        }
      }
    }
  }

  /**
   * The aggregated list repeats nothing, holds no empty string and no
   * comma, and holds exactly the non-empty comma pieces of the columns.
   */
  lemma AggregateWellFormed(columns: seq<Option<string>>)
    ensures Distinct(AggregatePermissions(columns))
    ensures forall p :: p in AggregatePermissions(columns) ==> p != "" && ',' !in p
    ensures forall p :: p in AggregatePermissions(columns) <==>
      p != "" && exists k :: 0 <= k < |columns| && columns[k].Some? && p in Split(columns[k].value, ',')
  {
    var pieces := FilterNonEmpty(Pieces(columns));
    DedupeContents(pieces);
    PiecesHaveNoComma(columns);
    FilterNonEmptyPieces(Pieces(columns), ',');
    forall p
      ensures p in AggregatePermissions(columns) <==>
        p != "" && exists k :: 0 <= k < |columns| && columns[k].Some? && p in Split(columns[k].value, ',')
    {
      if p != "" {
        PiecesMembers(columns, p);
      }
    }
    forall p | p in AggregatePermissions(columns)
      ensures ',' !in p
    {
      var i :| 0 <= i < |pieces| && pieces[i] == p;
    }
  }

  /** The aggregated permissions come in the order of their first occurrence among the pieces. */
  lemma AggregateOrder(columns: seq<Option<string>>, i: nat, j: nat)
    requires i < j < |AggregatePermissions(columns)|
    ensures var pieces := FilterNonEmpty(Pieces(columns));
      var ps := AggregatePermissions(columns);
      ps[i] in pieces && ps[j] in pieces && FirstIndex(pieces, ps[i]) < FirstIndex(pieces, ps[j])
  {
    DedupeFirstOccurrenceOrder(FilterNonEmpty(Pieces(columns)), i, j);
  }

  // ---------------------------------------------------------------------
  // login and profile

  /** The request body of a login; a missing field reads as `''`. */
  datatype Credentials = Credentials(username: Option<string>, password: Option<string>)

  /** What the token is signed over. */
  datatype Payload = Payload(id: int, username: string, permissions: seq<string>)

  datatype LoginReply = Token(payload: Payload) | LoginFailure(status: nat, message: string)

  /** The permission list of a user whose role row is `role`. */
  function PermissionsFor(role: Option<RoleRow>, columns: seq<Option<string>>): seq<string> {
    if role.Some? && role.value.value == Some("super_admin") then SuperAdminPermissions
    else AggregatePermissions(columns)
  }

  /** `POST /auth/login` against the tables. */
  function Login(body: Credentials, users: seq<UserRow>, roles: seq<RoleRow>,
                 roleMenu: seq<Menus.RoleMenu>, menus: seq<Menus.Row>): (r: LoginReply)
    ensures r.LoginFailure? <==> FindUser(users, body.username.GetOr(""), body.password.GetOr("")).None?
    ensures r.LoginFailure? ==> r == LoginFailure(400, "Invalid credentials")
    ensures r.Token? ==> exists u :: (u in users
      && u.username == body.username.GetOr("") && u.password == body.password.GetOr("")
      && r.payload.id == u.id && r.payload.username == u.username)
  {
    var row := FindUser(users, body.username.GetOr(""), body.password.GetOr(""));
    if row.None? then LoginFailure(400, "Invalid credentials")
    else
      var u := row.value;
      var role := FirstById(roles, RoleId, u.roleId);
      Token(Payload(u.id, u.username, PermissionsFor(role, JoinedPermissions(roleMenu, menus, u.roleId))))
  }

  /** A `super_admin` receives exactly the fixed list, which passes every permission check. */
  lemma SuperAdminLogin(body: Credentials, users: seq<UserRow>, roles: seq<RoleRow>,
                        roleMenu: seq<Menus.RoleMenu>, menus: seq<Menus.Row>, permRequired: string)
    requires FindUser(users, body.username.GetOr(""), body.password.GetOr("")).Some?
    requires var u := FindUser(users, body.username.GetOr(""), body.password.GetOr("")).value;
      FirstById(roles, RoleId, u.roleId).Some? && FirstById(roles, RoleId, u.roleId).value.value == Some("super_admin")
    ensures Login(body, users, roles, roleMenu, menus).Token?
    ensures Login(body, users, roles, roleMenu, menus).payload.permissions == SuperAdminPermissions
    ensures Rbac.Permission(permRequired, Some(Rbac.User(Some(Login(body, users, roles, roleMenu, menus).payload.permissions)))) == Rbac.CallNext
  {
    assert "*" in SuperAdminPermissions;
  }

  /** Any other user receives their role's menu permissions, deduplicated. */
  lemma OtherRoleLogin(body: Credentials, users: seq<UserRow>, roles: seq<RoleRow>,
                       roleMenu: seq<Menus.RoleMenu>, menus: seq<Menus.Row>)
    requires FindUser(users, body.username.GetOr(""), body.password.GetOr("")).Some?
    requires var u := FindUser(users, body.username.GetOr(""), body.password.GetOr("")).value;
      !(FirstById(roles, RoleId, u.roleId).Some? && FirstById(roles, RoleId, u.roleId).value.value == Some("super_admin"))
    ensures var u := FindUser(users, body.username.GetOr(""), body.password.GetOr("")).value;
      var ps := Login(body, users, roles, roleMenu, menus).payload.permissions;
      && ps == AggregatePermissions(JoinedPermissions(roleMenu, menus, u.roleId))
      && Distinct(ps)
      && forall p :: p in ps ==> p != "" && ',' !in p
  {
    var u := FindUser(users, body.username.GetOr(""), body.password.GetOr("")).value;
    AggregateWellFormed(JoinedPermissions(roleMenu, menus, u.roleId));
  }

  /** The signed-in user as the token gives it. */
  datatype TokenUser = TokenUser(id: int, username: string, permissions: Option<seq<string>>)

  datatype Profile = Profile(id: int, username: string, nickname: Option<string>, avatar: Option<string>,
                             permissions: Option<seq<string>>)

  datatype ProfileReply = Found(user: Profile) | ProfileFailure(status: nat, message: string)

  /** `GET /auth/profile`: the stored row, with the token's permissions. */
  function ReadProfile(user: TokenUser, users: seq<UserRow>): (r: ProfileReply)
    ensures r.ProfileFailure? <==> forall k :: 0 <= k < |users| ==> users[k].id != user.id
    ensures r.ProfileFailure? ==> r == ProfileFailure(404, "User not found")
    ensures r.Found? ==> r.user.id == user.id && r.user.permissions == user.permissions
    ensures r.Found? ==> exists u :: (u in users && u.id == user.id && r.user.username == u.username
      && r.user.nickname == u.nickname && r.user.avatar == u.avatar)
  {
    var row := FirstById(users, UserId, user.id);
    if row.None? then ProfileFailure(404, "User not found")
    else Found(Profile(row.value.id, row.value.username, row.value.nickname, row.value.avatar, user.permissions))
  }

  // ---------------------------------------------------------------------
  // profile update

  /** The request body of a profile update. */
  datatype ProfileBody = ProfileBody(nickname: Option<string>, avatar: Option<string>, password: Option<string>)

  /** A value bound to a placeholder. */
  datatype SqlValue = Text(text: string) | Key(id: int)

  /** The columns the update may set, in the order it sets them. */
  datatype Column = Nickname | Avatar | Password

  /** One assignment of the `SET` list. */
  datatype Assignment = Assignment(column: Column, value: string)

  datatype UpdateReply = Updated(sql: string, values: seq<SqlValue>, message: string)
                       | UpdateFailure(status: nat, message: string)

  /** The assignments the update makes, in the order it makes them. */
  function Assignments(body: ProfileBody): seq<Assignment> {
    (if body.nickname.Some? then [Assignment(Nickname, body.nickname.value)] else [])
      + (if body.avatar.Some? then [Assignment(Avatar, body.avatar.value)] else [])
      + (if body.password.Some? && body.password.value != "" then [Assignment(Password, body.password.value)] else [])
  }

  /** The `SET` clause of a column. */
  function Clause(c: Column): string {
    match c
    case Nickname => "nickname = ?"
    case Avatar => "avatar = ?"
    case Password => "password = ?"
  }

  /** The position of a column in the update's fixed order. */
  function Rank(c: Column): nat {
    match c
    case Nickname => 0
    case Avatar => 1
    case Password => 2
  }

  /** `pieces.join(sep)` with a separator of any length. */
  function JoinWith(pieces: seq<string>, sep: string): string
    decreases |pieces|
  {
    if |pieces| == 0 then ""
    else if |pieces| == 1 then pieces[0]
    else pieces[0] + sep + JoinWith(pieces[1..], sep)
  }

  function Clauses(asg: seq<Assignment>): (cs: seq<string>)
    ensures |cs| == |asg|
    ensures forall i :: 0 <= i < |asg| ==> cs[i] == Clause(asg[i].column)
  {
    seq(|asg|, i requires 0 <= i < |asg| => Clause(asg[i].column))
  }

  function Statement(asg: seq<Assignment>): string {
    "UPDATE users SET " + JoinWith(Clauses(asg), ", ") + " WHERE id = ?"
  }

  function BoundValues(asg: seq<Assignment>, userId: int): (vs: seq<SqlValue>)
    ensures |vs| == |asg| + 1
    ensures forall i :: 0 <= i < |asg| ==> vs[i] == Text(asg[i].value)
    ensures vs[|asg|] == Key(userId)
  {
    seq(|asg|, i requires 0 <= i < |asg| => Text(asg[i].value)) + [Key(userId)]
  }

  /** `PUT /auth/profile`: pushes one clause and one value per field given. */
  method UpdateProfile(user: TokenUser, body: ProfileBody) returns (r: UpdateReply)
    ensures Assignments(body) == [] ==> r == UpdateFailure(400, "No fields to update")
    ensures Assignments(body) != [] ==>
      r == Updated(Statement(Assignments(body)), BoundValues(Assignments(body), user.id), "Profile updated")
  {
    var updates: seq<string> := [];
    var values: seq<SqlValue> := [];
    ghost var done: seq<Assignment> := [];
    if body.nickname.Some? {
      PushAssignment(done, Assignment(Nickname, body.nickname.value), user.id);
      updates := updates + [Clause(Nickname)];
      values := values + [Text(body.nickname.value)];
      done := done + [Assignment(Nickname, body.nickname.value)];
    }
    if body.avatar.Some? {
      PushAssignment(done, Assignment(Avatar, body.avatar.value), user.id);
      updates := updates + [Clause(Avatar)];
      values := values + [Text(body.avatar.value)];
      done := done + [Assignment(Avatar, body.avatar.value)];
    }
    if body.password.Some? && body.password.value != "" {
      PushAssignment(done, Assignment(Password, body.password.value), user.id);
      updates := updates + [Clause(Password)];
      values := values + [Text(body.password.value)];
      done := done + [Assignment(Password, body.password.value)];
    }
    assert done == Assignments(body);
    if |updates| == 0 {
      return UpdateFailure(400, "No fields to update");
    }
    assert values + [Key(user.id)] == BoundValues(done, user.id);
    values := values + [Key(user.id)];
    r := Updated("UPDATE users SET " + JoinWith(updates, ", ") + " WHERE id = ?", values, "Profile updated");
  }

  /** One more pushed assignment adds its clause and its value. */
  lemma PushAssignment(done: seq<Assignment>, a: Assignment, userId: int)
    ensures Clauses(done + [a]) == Clauses(done) + [Clause(a.column)]
    ensures BoundValues(done + [a], userId)[..|done| + 1] == BoundValues(done, userId)[..|done|] + [Text(a.value)]
  {
  }

  /** The fields are set in the order nickname, avatar, password, each only when given; a password only when non-empty. */
  lemma AssignmentsOrder(body: ProfileBody)
    ensures (exists i :: 0 <= i < |Assignments(body)| && Assignments(body)[i].column == Nickname) <==> body.nickname.Some?
    ensures (exists i :: 0 <= i < |Assignments(body)| && Assignments(body)[i].column == Avatar) <==> body.avatar.Some?
    ensures (exists i :: 0 <= i < |Assignments(body)| && Assignments(body)[i].column == Password) <==>
      body.password.Some? && body.password.value != ""
    ensures forall i, j :: 0 <= i < j < |Assignments(body)| ==> Rank(Assignments(body)[i].column) < Rank(Assignments(body)[j].column)
    ensures |Assignments(body)| == 0 <==>
      body.nickname.None? && body.avatar.None? && (body.password.None? || body.password.value == "")
  {
    var asg := Assignments(body);
    if body.nickname.Some? {
      assert asg[0].column == Nickname;
    }
    if body.avatar.Some? {
      var i := if body.nickname.Some? then 1 else 0;
      assert asg[i].column == Avatar;
    }
    if body.password.Some? && body.password.value != "" {
      assert asg[|asg| - 1].column == Password;
    }
  }

  /** The number of times `c` occurs in `s`. */
  function Occurrences(s: string, c: char): nat
    decreases |s|
  {
    if |s| == 0 then 0 else (if s[0] == c then 1 else 0) + Occurrences(s[1..], c)
  }

  lemma {:induction false} OccurrencesAppend(a: string, b: string, c: char)
    ensures Occurrences(a + b, c) == Occurrences(a, c) + Occurrences(b, c)
    decreases |a|
  {
    if |a| > 0 {
      OccurrencesAppend(a[1..], b, c);
      assert (a + b)[1..] == a[1..] + b;
    } else {
      assert a + b == b;
    }
  }

  lemma {:induction false} JoinWithOccurrences(pieces: seq<string>, sep: string, c: char)
    requires Occurrences(sep, c) == 0
    requires forall i :: 0 <= i < |pieces| ==> Occurrences(pieces[i], c) == 1
    ensures Occurrences(JoinWith(pieces, sep), c) == |pieces|
    decreases |pieces|
  {
    if |pieces| > 1 {
      JoinWithOccurrences(pieces[1..], sep, c);
      OccurrencesAppend(pieces[0], sep, c);
      OccurrencesAppend(pieces[0] + sep, JoinWith(pieces[1..], sep), c);
    }
  }

  lemma {:induction false} OccurrencesAbsent(s: string, c: char)
    requires c !in s
    ensures Occurrences(s, c) == 0
    decreases |s|
  {
    if |s| > 0 {
      OccurrencesAbsent(s[1..], c);
    }
  }

  /** `text` followed by one `?` holds one placeholder when `text` holds none. */
  lemma OnePlaceholderAtEnd(text: string)
    requires '?' !in text
    ensures Occurrences(text + "?", '?') == 1
  {
    OccurrencesAbsent(text, '?');
    OccurrencesAppend(text, "?", '?');
  }

  lemma ClauseHasOnePlaceholder(c: Column)
    ensures Occurrences(Clause(c), '?') == 1
  {
    match c
    case Nickname =>
      assert Clause(c) == "nickname = " + "?";
      OnePlaceholderAtEnd("nickname = ");
    case Avatar =>
      assert Clause(c) == "avatar = " + "?";
      OnePlaceholderAtEnd("avatar = ");
    case Password =>
      assert Clause(c) == "password = " + "?";
      OnePlaceholderAtEnd("password = ");
  }

  /**
   * The statement has exactly one placeholder per bound value, and the
   * user id is bound last, to the one in `WHERE id = ?`.
   */
  lemma PlaceholdersMatchValues(body: ProfileBody, userId: int)
    requires Assignments(body) != []
    ensures Occurrences(Statement(Assignments(body)), '?') == |BoundValues(Assignments(body), userId)|
    ensures BoundValues(Assignments(body), userId)[|Assignments(body)|] == Key(userId)
    ensures forall i :: 0 <= i < |Assignments(body)| ==> BoundValues(Assignments(body), userId)[i].Text?
  {
    StatementPlaceholders(Assignments(body));
  }

  /** Whatever the assignments, the statement has one placeholder more than there are clauses. */
  lemma StatementPlaceholders(asg: seq<Assignment>)
    ensures Occurrences(Statement(asg), '?') == |asg| + 1
  {
    var cs := Clauses(asg);
    forall i | 0 <= i < |cs|
      ensures Occurrences(cs[i], '?') == 1
    {
      ClauseHasOnePlaceholder(asg[i].column);
    }
    SeparatorHasNone();
    JoinWithOccurrences(cs, ", ", '?');
    var head := "UPDATE users SET ";
    var tail := " WHERE id = ?";
    var joined := JoinWith(cs, ", ");
    HeadAndTail();
    OccurrencesAppend(head, joined, '?');
    OccurrencesAppend(head + joined, tail, '?');
  }

  lemma SeparatorHasNone()
    ensures Occurrences(", ", '?') == 0
  {
    OccurrencesAbsent(", ", '?');
  }

  /** The fixed text around the clauses: no placeholder before them, one after. */
  lemma HeadAndTail()
    ensures Occurrences("UPDATE users SET ", '?') == 0
    ensures Occurrences(" WHERE id = ?", '?') == 1
  {
    HeadHasNone();
    TailHasOne();
  }

  lemma HeadHasNone()
    ensures Occurrences("UPDATE users SET ", '?') == 0
  {
    OccurrencesAbsent("UPDATE users SET ", '?');
  }

  lemma TailHasOne()
    ensures Occurrences(" WHERE id = ?", '?') == 1
  {
    assert " WHERE id = ?" == " WHERE id = " + "?";
    OnePlaceholderAtEnd(" WHERE id = ");
  }
}
