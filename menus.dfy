/**
 * The menu routes of the back end. Rows of the `menus` table (read in
 * `menu_sort` order) become menu records, which are collected into an
 * insertion-ordered map keyed by id and then arranged into a parent/child
 * tree. The `/authorized` route first keeps only the menus the signed-in
 * user's role may see; `GET /` keeps them all.
 *
 * The tree is held as adjacency: the list of root ids, and for every menu
 * the list of its children's ids, in the order they were pushed.
 */
module Menus {
  import opened Wrappers
  import opened JsString
  import Rbac

  // ---------------------------------------------------------------------
  // rows and menu records

  /** One row of the `menus` table; a nullable column is an option. */
  datatype Row = Row(
    id: int,
    parentId: Option<string>,
    name: Option<string>,
    path: Option<string>,
    redirect: Option<string>,
    state: Option<int>,
    menuSort: Option<int>,
    icon: Option<string>,
    title: Option<string>,
    i18n: Option<string>,
    isHide: Option<int>,
    isFull: Option<int>,
    isAffix: Option<int>,
    isKeepAlive: Option<int>,
    permission: Option<string>)

  datatype Meta = Meta(
    icon: Option<string>,
    title: Option<string>,
    i18n: Option<string>,
    isHide: bool,
    isFull: bool,
    isAffix: bool,
    isKeepAlive: bool,
    permissions: seq<string>)

  /** A menu record as the routes build it, before children are attached. */
  datatype Menu = Menu(
    id: string,
    parentId: string,
    name: Option<string>,
    path: Option<string>,
    redirect: Option<string>,
    state: bool,
    menuSort: int,
    meta: Meta)

  /** `Boolean(v)` of an integer column: null and zero are false. */
  predicate Bool(v: Option<int>) {
    v.Some? && v.value != 0
  }

  /** The permission column read back: its non-empty comma-separated pieces. */
  function PermissionList(column: Option<string>): (ps: seq<string>)
    ensures forall i :: 0 <= i < |ps| ==> ps[i] != "" && ',' !in ps[i]
    ensures column.None? || column.value == "" ==> ps == []
    ensures column.Some? && column.value != "" ==>
      forall x :: x in ps <==> x != "" && x in Split(column.value, ',')
  {
    if column.Some? && Truthy(column.value) then
      FilterNonEmptyPieces(Split(column.value, ','), ',');
      FilterNonEmpty(Split(column.value, ','))
    else []
  }

  /** The permission column as the create and update routes write it. */
  function StoredPermission(permissions: Option<seq<string>>): string {
    Join(permissions.GetOr([]), ',')
  }

  /** Permissions written and read back are unchanged when no entry is empty or holds a comma. */
  lemma PermissionRoundTrip(ps: seq<string>)
    requires forall i :: 0 <= i < |ps| ==> ps[i] != "" && ',' !in ps[i]
    ensures PermissionList(Some(StoredPermission(Some(ps)))) == ps
  {
    if |ps| > 0 {
      JoinThenSplitNonEmpty(ps, ',');
    }
  }

  /** Re-storing a column that was read drops its empty pieces and nothing more. */
  lemma PermissionRestoreStable(column: Option<string>)
    ensures PermissionList(Some(StoredPermission(Some(PermissionList(column))))) == PermissionList(column)
  {
    PermissionRoundTrip(PermissionList(column));
  }

  /** The record one row becomes. */
  function ToMenu(r: Row): (m: Menu)
    ensures m.id == IntToString(r.id)
  {
    Menu(
      IntToString(r.id),
      if r.parentId.Some? then r.parentId.value else "0",
      r.name, r.path, r.redirect,
      Bool(r.state),
      r.menuSort.GetOr(0),
      Meta(r.icon, r.title, r.i18n,
        Bool(r.isHide), Bool(r.isFull), Bool(r.isAffix), Bool(r.isKeepAlive),
        PermissionList(r.permission)))
  }

  /** A menu's id is its row's id in decimal, so distinct rows have distinct ids. */
  lemma MenuIdIdentifiesRow(r: Row, s: Row)
    ensures ParseInt(ToMenu(r).id) == Some(r.id)
    ensures ToMenu(r).id == ToMenu(s).id <==> r.id == s.id
  {
    ParseIntOfIntToString(r.id);
    IntToStringInjective(r.id, s.id);
  }

  /** A row without a parent is a child of `'0'`, and one without a sort key sorts as 0. */
  lemma RowDefaults(r: Row)
    requires r.parentId.None? && r.menuSort.None?
    ensures ToMenu(r).parentId == "0" && ToMenu(r).menuSort == 0
    ensures Place(ToMenu(r), map[]) == Root
  {
  }

  // ---------------------------------------------------------------------
  // the insertion-ordered map of menus

  /** A JavaScript `Map` from id to menu: its keys in insertion order, and the entries. */
  datatype MenuMap = MenuMap(order: seq<string>, byId: map<string, Menu>)

  /** `map.set(m.id, m)`: a new key goes last, an existing key keeps its place. */
  function MapSet(mm: MenuMap, m: Menu): MenuMap {
    MenuMap(if m.id in mm.byId then mm.order else mm.order + [m.id], mm.byId[m.id := m])
  }

  /** Whether the loop keeps a row: every row for a super admin, else the authorized ids. */
  predicate Admits(admitAll: bool, authorized: seq<string>, r: Row) {
    admitAll || IntToString(r.id) in authorized
  }

  /** The map after the loop has seen `rows`. */
  function Collect(rows: seq<Row>, admitAll: bool, authorized: seq<string>): MenuMap
    decreases |rows|
  {
    if |rows| == 0 then MenuMap([], map[])
    else
      var mm := Collect(rows[..|rows| - 1], admitAll, authorized);
      var r := rows[|rows| - 1];
      if Admits(admitAll, authorized, r) then MapSet(mm, ToMenu(r)) else mm
  }

  ghost predicate Distinct(s: seq<string>) {
    forall i, j :: 0 <= i < j < |s| ==> s[i] != s[j]
  }

  /** The order lists each key once, and every entry sits under its own id. */
  ghost predicate WellFormed(mm: MenuMap) {
    && Distinct(mm.order)
    && (forall id :: id in mm.byId <==> id in mm.order)
    && (forall id :: id in mm.byId ==> mm.byId[id].id == id)
  }

  ghost predicate DistinctRowIds(rows: seq<Row>) {
    forall i, j :: 0 <= i < j < |rows| ==> rows[i].id != rows[j].id
  }

  /** The ids of the admitted rows, in row order. */
  function AdmittedIds(rows: seq<Row>, admitAll: bool, authorized: seq<string>): seq<string>
    decreases |rows|
  {
    if |rows| == 0 then []
    else
      var r := rows[|rows| - 1];
      AdmittedIds(rows[..|rows| - 1], admitAll, authorized)
        + (if Admits(admitAll, authorized, r) then [IntToString(r.id)] else [])
  }

  /** Fills the map from the rows, skipping those the user may not see. */
  method CollectMenus(rows: seq<Row>, admitAll: bool, authorized: seq<string>) returns (mm: MenuMap)
    ensures mm == Collect(rows, admitAll, authorized)
  {
    mm := MenuMap([], map[]);
    for i := 0 to |rows|
      invariant mm == Collect(rows[..i], admitAll, authorized)
    {
      assert rows[..i + 1][..i] == rows[..i];
      var menuId := IntToString(rows[i].id);
      if admitAll || menuId in authorized {
        mm := MapSet(mm, ToMenu(rows[i]));
      }
    }
    assert rows[..|rows|] == rows;
  }

  lemma {:induction false} CollectWellFormed(rows: seq<Row>, admitAll: bool, authorized: seq<string>)
    ensures WellFormed(Collect(rows, admitAll, authorized))
    decreases |rows|
  {
    if |rows| > 0 {
      CollectWellFormed(rows[..|rows| - 1], admitAll, authorized);
    }
  }

  /** Some admitted row has the id `id`. */
  ghost predicate AdmittedAmong(rows: seq<Row>, admitAll: bool, authorized: seq<string>, id: string) {
    exists k :: 0 <= k < |rows| && Admits(admitAll, authorized, rows[k]) && IntToString(rows[k].id) == id
  }

  lemma AdmittedAmongSnoc(rows: seq<Row>, admitAll: bool, authorized: seq<string>, id: string)
    requires |rows| > 0
    ensures var last := rows[|rows| - 1];
      AdmittedAmong(rows, admitAll, authorized, id) <==>
        AdmittedAmong(rows[..|rows| - 1], admitAll, authorized, id) ||
        (Admits(admitAll, authorized, last) && IntToString(last.id) == id)
  {
    var front := rows[..|rows| - 1];
    if AdmittedAmong(front, admitAll, authorized, id) {
      var k :| 0 <= k < |front| && Admits(admitAll, authorized, front[k]) && IntToString(front[k].id) == id;
      assert rows[k] == front[k];
    }
    if AdmittedAmong(rows, admitAll, authorized, id) {
      var k :| 0 <= k < |rows| && Admits(admitAll, authorized, rows[k]) && IntToString(rows[k].id) == id;
      if k < |front| {
        assert front[k] == rows[k];
      }
    }
  }

  /** The map holds exactly the ids of the admitted rows. */
  lemma {:induction false} CollectKeys(rows: seq<Row>, admitAll: bool, authorized: seq<string>, id: string)
    ensures id in Collect(rows, admitAll, authorized).byId <==> AdmittedAmong(rows, admitAll, authorized, id)
    decreases |rows|
  {
    if |rows| > 0 {
      CollectKeys(rows[..|rows| - 1], admitAll, authorized, id);
      AdmittedAmongSnoc(rows, admitAll, authorized, id);
    }
  }

  /** For the `/authorized` route, only ids the role is granted appear. */
  lemma AuthorizedOnly(rows: seq<Row>, authorized: seq<string>, id: string)
    requires id in Collect(rows, false, authorized).byId
    ensures id in authorized
  {
    CollectKeys(rows, false, authorized, id);
  }

  /** For a super admin, and for `GET /`, every row appears. */
  lemma AdminSeesEveryRow(rows: seq<Row>, authorized: seq<string>, k: nat)
    requires k < |rows|
    ensures IntToString(rows[k].id) in Collect(rows, true, authorized).byId
  {
    CollectKeys(rows, true, authorized, IntToString(rows[k].id));
  }

  /** With distinct row ids, each admitted row's record is the one stored under its id. */
  lemma {:induction false} CollectRecords(rows: seq<Row>, admitAll: bool, authorized: seq<string>, k: nat)
    requires DistinctRowIds(rows)
    requires k < |rows| && Admits(admitAll, authorized, rows[k])
    ensures IntToString(rows[k].id) in Collect(rows, admitAll, authorized).byId
    ensures Collect(rows, admitAll, authorized).byId[IntToString(rows[k].id)] == ToMenu(rows[k])
    decreases |rows|
  {
    var front := rows[..|rows| - 1];
    var last := rows[|rows| - 1];
    if k < |front| {
      assert front[k] == rows[k];
      CollectRecords(front, admitAll, authorized, k);
      IntToStringInjective(rows[k].id, last.id);
    }
  }

  /** With distinct row ids, the map's order is the row order of the admitted rows. */
  lemma {:induction false} CollectOrder(rows: seq<Row>, admitAll: bool, authorized: seq<string>)
    requires DistinctRowIds(rows)
    ensures Collect(rows, admitAll, authorized).order == AdmittedIds(rows, admitAll, authorized)
    decreases |rows|
  {
    if |rows| > 0 {
      var front := rows[..|rows| - 1];
      var last := rows[|rows| - 1];
      CollectOrder(front, admitAll, authorized);
      var id := IntToString(last.id);
      if id in Collect(front, admitAll, authorized).byId {
        CollectKeys(front, admitAll, authorized, id);
        var k :| 0 <= k < |front| && Admits(admitAll, authorized, front[k]) && IntToString(front[k].id) == id;
        IntToStringInjective(front[k].id, last.id);
        assert false;
      }
    }
  }

  // ---------------------------------------------------------------------
  // the tree

  /** Where the tree loop pushes a menu. */
  datatype Placement = Root | ChildOf(parent: string)

  /** A menu with parent `''` or `'0'`, or whose parent is not in the map, is a root. */
  function Place(m: Menu, byId: map<string, Menu>): Placement {
    if m.parentId == "" || m.parentId == "0" then Root
    else if m.parentId in byId then ChildOf(m.parentId)
    else Root
  }

  /** The ids of `order` the loop pushes to `where`, in order. */
  function Placed(order: seq<string>, byId: map<string, Menu>, where: Placement): seq<string>
    decreases |order|
  {
    if |order| == 0 then []
    else
      var id := order[|order| - 1];
      Placed(order[..|order| - 1], byId, where) + (if id in byId && Place(byId[id], byId) == where then [id] else [])
  }

  /** A list the loop builds holds exactly the ids placed there. */
  lemma {:induction false} PlacedMember(order: seq<string>, byId: map<string, Menu>, where: Placement, id: string)
    ensures id in Placed(order, byId, where) <==> id in order && id in byId && Place(byId[id], byId) == where
    decreases |order|
  {
    if |order| > 0 {
      PlacedMember(order[..|order| - 1], byId, where, id);
      assert order == order[..|order| - 1] + [order[|order| - 1]];
    }
  }

  /** The tree the routes return: root ids, each menu's child ids, and the records. */
  datatype Tree = Tree(roots: seq<string>, children: map<string, seq<string>>, menus: map<string, Menu>)

  const EmptyTree := Tree([], map[], map[])

  ghost predicate IsTreeOf(t: Tree, mm: MenuMap) {
    && t.menus == mm.byId
    && t.roots == Placed(mm.order, mm.byId, Root)
    && (forall p :: p in t.children <==> p in mm.byId)
    && (forall p :: p in t.children ==> t.children[p] == Placed(mm.order, mm.byId, ChildOf(p)))
  }

  /** Walks the map in insertion order, pushing each menu to the roots or to its parent's children. */
  method BuildTree(mm: MenuMap) returns (t: Tree)
    requires forall id :: id in mm.order ==> id in mm.byId
    ensures IsTreeOf(t, mm)
  {
    var roots: seq<string> := [];
    var children: map<string, seq<string>> := map id | id in mm.byId :: [];
    for i := 0 to |mm.order|
      invariant roots == Placed(mm.order[..i], mm.byId, Root)
      invariant forall p :: p in children <==> p in mm.byId
      invariant forall p :: p in children ==> children[p] == Placed(mm.order[..i], mm.byId, ChildOf(p))
    {
      var id := mm.order[i];
      var menu := mm.byId[id];
      PlacedStep(mm.order, mm.byId, i, Root);
      forall p | p in children
        ensures Placed(mm.order[..i + 1], mm.byId, ChildOf(p)) ==
          Placed(mm.order[..i], mm.byId, ChildOf(p)) + (if Place(menu, mm.byId) == ChildOf(p) then [id] else [])
      {
        PlacedStep(mm.order, mm.byId, i, ChildOf(p));
      }
      if menu.parentId == "" || menu.parentId == "0" {
        roots := roots + [id];
      } else if menu.parentId in mm.byId {
        children := children[menu.parentId := children[menu.parentId] + [id]];
      } else {
        roots := roots + [id];
      }
    }
    assert mm.order[..|mm.order|] == mm.order;
    t := Tree(roots, children, mm.byId);
  }

  /** One more step of the loop appends the next id to the list it is placed in, and to no other. */
  lemma PlacedStep(order: seq<string>, byId: map<string, Menu>, i: nat, where: Placement)
    requires i < |order| && order[i] in byId
    ensures Placed(order[..i + 1], byId, where) ==
      Placed(order[..i], byId, where) + (if Place(byId[order[i]], byId) == where then [order[i]] else [])
  {
    assert order[..i + 1][..i] == order[..i];
  }

  /** A list the loop pushes to never holds an id twice, when the order does not. */
  lemma {:induction false} PlacedDistinct(order: seq<string>, byId: map<string, Menu>, where: Placement)
    requires Distinct(order)
    ensures Distinct(Placed(order, byId, where))
    decreases |order|
  {
    if |order| > 0 {
      var front := order[..|order| - 1];
      assert Distinct(front);
      PlacedDistinct(front, byId, where);
      var last := order[|order| - 1];
      PlacedMember(front, byId, where, last);
      if last in Placed(front, byId, where) {
        assert false;
      }
    }
  }

  /** `x` comes before `y` in `s`. */
  ghost predicate Precedes(s: seq<string>, x: string, y: string) {
    exists i, j :: 0 <= i < j < |s| && s[i] == x && s[j] == y
  }

  /** The lists the loop builds keep the map's insertion order. */
  lemma {:induction false} PlacedKeepsOrder(order: seq<string>, byId: map<string, Menu>, where: Placement, x: string, y: string)
    requires Precedes(Placed(order, byId, where), x, y)
    ensures Precedes(order, x, y)
    decreases |order|
  {
    var front := order[..|order| - 1];
    var pf := Placed(front, byId, where);
    var ps := Placed(order, byId, where);
    var i, j :| 0 <= i < j < |ps| && ps[i] == x && ps[j] == y;
    if j < |pf| {
      assert pf[i] == x && pf[j] == y;
      PlacedKeepsOrder(front, byId, where, x, y);
      var i', j' :| 0 <= i' < j' < |front| && front[i'] == x && front[j'] == y;
      assert order[i'] == x && order[j'] == y;
    } else {
      assert y == order[|order| - 1];
      assert x == pf[i] && x in pf;
      PlacedMember(front, byId, where, x);
      var k :| 0 <= k < |front| && front[k] == x;
      assert order[k] == x;
    }
  }

  /**
   * Every menu of a well-formed map is pushed exactly once: to the roots
   * when it is placed there, else to the children of its parent only, and
   * no list holds it twice.
   */
  lemma PlacedExactlyOnce(t: Tree, mm: MenuMap, id: string)
    requires WellFormed(mm) && IsTreeOf(t, mm)
    requires id in mm.order
    ensures id in t.roots <==> Place(mm.byId[id], mm.byId) == Root
    ensures id in t.roots ==> forall p :: p in t.children ==> id !in t.children[p]
    ensures id !in t.roots ==>
      var parent := mm.byId[id].parentId;
      parent in t.children && id in t.children[parent] &&
      (forall p :: p in t.children && p != parent ==> id !in t.children[p])
    ensures Distinct(t.roots) && forall p :: p in t.children ==> Distinct(t.children[p])
  {
    PlacedMember(mm.order, mm.byId, Root, id);
    forall p | p in t.children
      ensures id in t.children[p] <==> Place(mm.byId[id], mm.byId) == ChildOf(p)
    {
      PlacedMember(mm.order, mm.byId, ChildOf(p), id);
    }
    PlacedDistinct(mm.order, mm.byId, Root);
    forall p | p in t.children
      ensures Distinct(t.children[p])
    {
      PlacedDistinct(mm.order, mm.byId, ChildOf(p));
    }
  }

  /** Root order and sibling order follow the order the menus were inserted in. */
  lemma TreeKeepsOrder(t: Tree, mm: MenuMap, x: string, y: string)
    requires IsTreeOf(t, mm)
    ensures Precedes(t.roots, x, y) ==> Precedes(mm.order, x, y)
    ensures forall p :: p in t.children && Precedes(t.children[p], x, y) ==> Precedes(mm.order, x, y)
  {
    if Precedes(t.roots, x, y) {
      PlacedKeepsOrder(mm.order, mm.byId, Root, x, y);
    }
    forall p | p in t.children && Precedes(t.children[p], x, y)
      ensures Precedes(mm.order, x, y)
    {
      PlacedKeepsOrder(mm.order, mm.byId, ChildOf(p), x, y);
    }
  }

  // ---------------------------------------------------------------------
  // the routes

  /** One row of the `role_menu` table. */
  datatype RoleMenu = RoleMenu(roleId: int, menuId: int)

  /** `String(menu_id)` of the role's rows, in table order. */
  function MenuIdsOfRole(roleMenu: seq<RoleMenu>, roleId: int): seq<string>
    decreases |roleMenu|
  {
    if |roleMenu| == 0 then []
    else
      MenuIdsOfRole(roleMenu[..|roleMenu| - 1], roleId)
        + (if roleMenu[|roleMenu| - 1].roleId == roleId then [IntToString(roleMenu[|roleMenu| - 1].menuId)] else [])
  }

  /** `user.permissions?.includes('*')`. */
  predicate IsSuperAdmin(user: Rbac.User) {
    user.permissions.Some? && "*" in user.permissions.value
  }

  /** A super admin passes every permission check too. */
  lemma SuperAdminPassesEveryCheck(user: Rbac.User, permRequired: string)
    requires IsSuperAdmin(user)
    ensures Rbac.Permission(permRequired, Some(user)) == Rbac.CallNext
  {
  }

  /**
   * `GET /authorized`. `userRole` is the `role_id` of the user's row, or
   * `None` when there is no row; `roleMenu` and `rows` are the two tables.
   */
  method Authorized(user: Rbac.User, userRole: Option<int>, roleMenu: seq<RoleMenu>, rows: seq<Row>) returns (t: Tree)
    ensures IsSuperAdmin(user) ==> IsTreeOf(t, Collect(rows, true, []))
    ensures !IsSuperAdmin(user) && userRole.None? ==> t == EmptyTree
    ensures !IsSuperAdmin(user) && userRole.Some? && MenuIdsOfRole(roleMenu, userRole.value) == [] ==> t == EmptyTree
    ensures !IsSuperAdmin(user) && userRole.Some? && MenuIdsOfRole(roleMenu, userRole.value) != [] ==>
      IsTreeOf(t, Collect(rows, false, MenuIdsOfRole(roleMenu, userRole.value)))
  {
    var isSuperAdmin := user.permissions.Some? && "*" in user.permissions.value;
    var authorized: seq<string> := [];
    if !isSuperAdmin {
      if userRole.None? {
        return EmptyTree;
      }
      authorized := MenuIdsOfRole(roleMenu, userRole.value);
      if |authorized| == 0 {
        return EmptyTree;
      }
    }
    var mm := CollectMenus(rows, isSuperAdmin, authorized);
    CollectWellFormed(rows, isSuperAdmin, authorized);
    t := BuildTree(mm);
    if isSuperAdmin {
      assert Collect(rows, true, authorized) == Collect(rows, true, []) by {
        AdmitAllIgnoresList(rows, authorized);
      }
    }
  }

  /** `GET /`: every menu, arranged the same way. */
  method ListAll(rows: seq<Row>) returns (t: Tree)
    ensures IsTreeOf(t, Collect(rows, true, []))
  {
    var mm := CollectMenus(rows, true, []);
    CollectWellFormed(rows, true, []);
    t := BuildTree(mm);
  }

  lemma {:induction false} AdmitAllIgnoresList(rows: seq<Row>, authorized: seq<string>)
    ensures Collect(rows, true, authorized) == Collect(rows, true, [])
    decreases |rows|
  {
    if |rows| > 0 {
      AdmitAllIgnoresList(rows[..|rows| - 1], authorized);
    }
  }
}
