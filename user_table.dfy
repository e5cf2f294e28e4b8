/**
 * The user page: the `useTable` state of its table (sort column and
 * direction, page, page size, selected rows), the name filter that resets
 * the page, the role-name lookup of each row and the bodies the create and
 * edit dialogs send.
 */
module UserTable {
  import opened Wrappers
  import opened JsString
  import opened TableSelection

  datatype Order = Asc | Desc

  /**
   * The direction after a click on column `id`: descending only when the
   * table is already sorted ascending by that column.
   */
  function NextOrder(orderBy: string, order: Order, id: string): (o: Order)
    ensures o == Desc <==> orderBy == id && order == Asc
  {
    if orderBy == id && order == Asc then Desc else Asc
  }

  /** Clicking a new column sorts it ascending. */
  lemma NewColumnAscending(orderBy: string, order: Order, id: string)
    requires orderBy != id
    ensures NextOrder(orderBy, order, id) == Asc
  {
  }

  /** Repeated clicks on one column alternate its direction. */
  lemma SameColumnAlternates(orderBy: string, order: Order, id: string)
    ensures NextOrder(id, NextOrder(orderBy, order, id), id) != NextOrder(orderBy, order, id)
  {
  }

  /** The state `useTable` keeps; every handler overwrites some of its cells. */
  class Table {
    var page: nat
    var orderBy: string
    var rowsPerPage: nat
    var selected: seq<string>
    var order: Order

    constructor ()
      ensures page == 0 && orderBy == "username" && rowsPerPage == 5
      ensures selected == [] && order == Asc
    {
      page := 0;
      orderBy := "username";
      rowsPerPage := 5;
      selected := [];
      order := Asc;
    }

    /** `onSort(id)`: the next direction, and `id` becomes the sort column. */
    method OnSort(id: string)
      modifies this
      ensures order == NextOrder(old(orderBy), old(order), id) && orderBy == id
      ensures page == old(page) && rowsPerPage == old(rowsPerPage) && selected == old(selected)
    {
      var isAsc := orderBy == id && order == Asc;
      order := if isAsc then Desc else Asc;
      orderBy := id;
    }

    /** `onSelectAllRows(checked, ids)`: all the given rows, or none. */
    method OnSelectAllRows(checked: bool, newSelecteds: seq<string>)
      modifies this
      ensures selected == (if checked then newSelecteds else [])
      ensures page == old(page) && rowsPerPage == old(rowsPerPage)
      ensures orderBy == old(orderBy) && order == old(order)
    {
      if checked {
        selected := newSelecteds;
        return;
      }
      selected := [];
    }

    /** `onSelectRow(value)`: removes the value when selected, else appends it. */
    method OnSelectRow(inputValue: string)
      modifies this
      ensures selected == ToggleRow(old(selected), inputValue)
      ensures page == old(page) && rowsPerPage == old(rowsPerPage)
      ensures orderBy == old(orderBy) && order == old(order)
    {
      selected := ToggleRow(selected, inputValue);
    }

    /** `onResetPage`. */
    method OnResetPage()
      modifies this
      ensures page == 0
      ensures rowsPerPage == old(rowsPerPage) && selected == old(selected)
      ensures orderBy == old(orderBy) && order == old(order)
    {
      page := 0;
    }

    /** `onChangePage`. */
    method OnChangePage(newPage: nat)
      modifies this
      ensures page == newPage
      ensures rowsPerPage == old(rowsPerPage) && selected == old(selected)
      ensures orderBy == old(orderBy) && order == old(order)
    {
      page := newPage;
    }

    /** `onChangeRowsPerPage`: the new page size, then `onResetPage`. */
    method OnChangeRowsPerPage(value: nat)
      modifies this
      ensures rowsPerPage == value && page == 0
      ensures selected == old(selected) && orderBy == old(orderBy) && order == old(order)
    {
      rowsPerPage := value;
      OnResetPage();
    }
  }

  /** The page's own filter text, next to its table. */
  class UserPage {
    var filterName: string
    const table: Table

    constructor ()
      ensures filterName == "" && fresh(table)
      ensures table.page == 0 && table.orderBy == "username" && table.rowsPerPage == 5
      ensures table.selected == [] && table.order == Asc
    {
      filterName := "";
      table := new Table();
    }

    /** Typing in the filter box stores the text and goes back to the first page. */
    method OnFilterName(value: string)
      modifies this, table
      ensures filterName == value && table.page == 0
      ensures table.rowsPerPage == old(table.rowsPerPage) && table.selected == old(table.selected)
      ensures table.orderBy == old(table.orderBy) && table.order == old(table.order)
    {
      filterName := value;
      table.OnResetPage();
    }
  }

  // ---------------------------------------------------------------------
  // role names

  datatype Role = Role(id: int, name: string)

  /** The index of the first role at or after `from` whose id reads as `roleId`, or `|roles|`. */
  function FirstRoleIndex(roles: seq<Role>, roleId: string, from: nat): (i: nat)
    requires from <= |roles|
    ensures from <= i <= |roles|
    ensures forall j :: from <= j < i ==> IntToString(roles[j].id) != roleId
    ensures i < |roles| ==> IntToString(roles[i].id) == roleId
    decreases |roles| - from
  {
    if from == |roles| then from
    else if IntToString(roles[from].id) == roleId then from
    else FirstRoleIndex(roles, roleId, from + 1)
  }

  /** `roles.find(r => String(r.id) === roleId)`: the first role whose id reads as `roleId`. */
  function FindRole(roles: seq<Role>, roleId: string): (r: Option<Role>)
    ensures r.None? <==> forall x :: x in roles ==> IntToString(x.id) != roleId
    ensures r.Some? ==> r.value in roles && IntToString(r.value.id) == roleId
    ensures r.Some? ==>
      (exists i :: 0 <= i < |roles| && roles[i] == r.value &&
         forall j :: 0 <= j < i ==> IntToString(roles[j].id) != roleId)
  {
    var i := FirstRoleIndex(roles, roleId, 0);
    if i < |roles| then Some(roles[i]) else None
  }

  /** `getRoleName(roleId)`: the matching role's name, or "-". */
  function GetRoleName(roleId: Option<string>, roles: seq<Role>): (name: string)
    ensures name != ""
  {
    if roleId.None? || roleId.value == "" then "-"
    else
      var role := FindRole(roles, roleId.value);
      if role.Some? && role.value.name != "" then role.value.name else "-"
  }

  /** No role id, or an id no role has, shows "-". */
  lemma RoleNameMissing(roleId: Option<string>, roles: seq<Role>)
    requires roleId.None? || roleId == Some("") ||
      forall x :: x in roles ==> IntToString(x.id) != roleId.value
    ensures GetRoleName(roleId, roles) == "-"
  {
  }

  /** A user whose role id is `String(r.id)` shows `r`'s name, when ids are unique and the name is set. */
  lemma RoleNameOfRole(roles: seq<Role>, r: Role)
    requires r in roles && r.name != ""
    requires forall x :: x in roles && x.id == r.id ==> x == r
    ensures GetRoleName(Some(IntToString(r.id)), roles) == r.name
  {
    var found := FindRole(roles, IntToString(r.id));
    IntToStringInjective(found.value.id, r.id);
    assert IntToString(r.id) != "" by {
      if r.id >= 0 {
        ParseIntOfIntToString(r.id);
      } else {
        assert IntToString(r.id)[0] == '-';
      }
    }
  }

  // ---------------------------------------------------------------------
  // role names on the rows as the users route returns them

  /**
   * A row's `role_id` as `GET /users` returns it: SQL NULL, or the
   * integer the `integer` column holds. Text is what the page's type
   * declares and what the lookup above compares with.
   */
  datatype RoleIdValue = NullId | IntId(n: int) | TextId(s: string)

  /** `!roleId` is false: null, 0 and "" are falsy. */
  predicate RoleIdTruthy(v: RoleIdValue) {
    match v
    case NullId => false
    case IntId(n) => n != 0
    case TextId(s) => s != ""
  }

  /** `String(r.id) === roleId`: a string is never strictly equal to a number or to null. */
  predicate StrictIdMatch(r: Role, v: RoleIdValue) {
    v.TextId? && IntToString(r.id) == v.s
  }

  /** `roles.find(r => String(r.id) === roleId)` on the value as returned. */
  function FindRoleStrict(roles: seq<Role>, roleId: RoleIdValue): (r: Option<Role>)
    ensures r.None? <==> forall x :: x in roles ==> !StrictIdMatch(x, roleId)
    ensures r.Some? ==> r.value in roles && StrictIdMatch(r.value, roleId)
    ensures roleId.TextId? ==> r == FindRole(roles, roleId.s)
  {
    if |roles| == 0 then None
    else if StrictIdMatch(roles[0], roleId) then Some(roles[0])
    else
      var rest := FindRoleStrict(roles[1..], roleId);
      assert roleId.TextId? ==> rest == FindRole(roles, roleId.s) by {
        if roleId.TextId? {
          FindRoleAfterMiss(roles, roleId.s);
        }
      }
      rest
  }

  /** When the first role does not match, the search goes on in the rest. */
  lemma FindRoleAfterMiss(roles: seq<Role>, roleId: string)
    requires |roles| > 0 && IntToString(roles[0].id) != roleId
    ensures FindRole(roles, roleId) == FindRole(roles[1..], roleId)
  {
    var a := FindRole(roles, roleId);
    var b := FindRole(roles[1..], roleId);
    if b.Some? {
      var i :| 0 <= i < |roles| - 1 && roles[1..][i] == b.value &&
        forall j :: 0 <= j < i ==> IntToString(roles[1..][j].id) != roleId;
      var k := FirstRoleIndex(roles, roleId, 0);
      assert k == i + 1 by {
        assert IntToString(roles[i + 1].id) == roleId;
      }
    } else {
      assert forall x :: x in roles ==> x == roles[0] || x in roles[1..];
    }
  }

  /** `getRoleName(row.role_id)` as written, on the value the route returns. */
  function GetRoleNameAsWritten(roleId: RoleIdValue, roles: seq<Role>): (name: string)
    ensures name != ""
    ensures roleId.TextId? ==> name == GetRoleName(Some(roleId.s), roles)
  {
    if !RoleIdTruthy(roleId) then "-"
    else
      var role := FindRoleStrict(roles, roleId);
      if role.Some? && role.value.name != "" then role.value.name else "-"
  }

  /** As written, every row carrying a numeric role id shows "-", whatever the roles. */
  lemma NumericRoleIdShowsDash(roles: seq<Role>, n: int)
    ensures GetRoleNameAsWritten(IntId(n), roles) == "-"
  {
  }

  /** The id's text, `String(roleId)`. */
  function RoleIdText(v: RoleIdValue): (t: string)
    requires !v.NullId?
    ensures v.TextId? ==> t == v.s
  {
    match v
    case IntId(n) => IntToString(n)
    case TextId(s) => s
  }

  /** The lookup evidently intended: `String(r.id) === String(roleId)`. */
  function GetRoleNameIntended(roleId: RoleIdValue, roles: seq<Role>): (name: string)
    ensures name != ""
    ensures roleId.TextId? ==> name == GetRoleNameAsWritten(roleId, roles)
    ensures !RoleIdTruthy(roleId) ==> name == "-"
  {
    if !RoleIdTruthy(roleId) then "-" else GetRoleName(Some(RoleIdText(roleId)), roles)
  }

  /** With the intended lookup, a row whose role id is `r.id` shows `r`'s name. */
  lemma RoleNameOfNumericRoleId(roles: seq<Role>, r: Role)
    requires r in roles && r.name != "" && r.id != 0
    requires forall x :: x in roles && x.id == r.id ==> x == r
    ensures GetRoleNameIntended(IntId(r.id), roles) == r.name
    ensures GetRoleNameAsWritten(IntId(r.id), roles) == "-"
  {
    RoleNameOfRole(roles, r);
  }

  // ---------------------------------------------------------------------
  // dialog bodies

  /** The dialog's form; `roleId` is the selected role's id as text, "" for none. */
  datatype Form = Form(username: string, password: string, nickname: string, avatar: string, roleId: string)

  datatype CreateBody = CreateBody(username: string, password: string, nickname: string,
    avatar: Option<string>, roleId: Option<string>)

  /** An absent field is one the request leaves out. */
  datatype EditBody = EditBody(nickname: string, avatar: Option<string>, roleId: Option<string>,
    password: Option<string>)

  /** `value || undefined`. */
  function OrAbsent(value: string): (r: Option<string>)
    ensures r.None? <==> value == ""
    ensures r.Some? ==> r.value == value
  {
    if value != "" then Some(value) else None
  }

  /** The body of a create request. */
  function CreatePayload(form: Form): (b: CreateBody)
    ensures b.username == form.username && b.password == form.password && b.nickname == form.nickname
    ensures b.avatar == OrAbsent(form.avatar) && b.roleId == OrAbsent(form.roleId)
  {
    CreateBody(form.username, form.password, form.nickname, OrAbsent(form.avatar), OrAbsent(form.roleId))
  }

  /** The body of an edit request: the username is never sent, the password only when typed. */
  function EditPayload(form: Form): (b: EditBody)
    ensures b.nickname == form.nickname
    ensures b.avatar == OrAbsent(form.avatar) && b.roleId == OrAbsent(form.roleId)
    ensures b.password.Some? <==> form.password != ""
    ensures b.password.Some? ==> b.password.value == form.password
  {
    EditBody(form.nickname, OrAbsent(form.avatar), OrAbsent(form.roleId),
      if form.password != "" then Some(form.password) else None)
  }

  /** The edit form opens with an empty password, so an edit left untouched keeps the stored one. */
  lemma EditKeepsPasswordUnlessTyped(username: string, nickname: string, avatar: string, roleId: string)
    ensures EditPayload(Form(username, "", nickname, avatar, roleId)).password.None?
  {
  }
}
