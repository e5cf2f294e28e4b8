/**
 * The role page: a paged table of roles with a row selection, and the
 * menu-permission tree of the role dialog, whose checkboxes select a menu
 * together with all of its descendants.
 */
module RoleView {
  import opened NavMenus
  import opened TableSelection

  // ---------------------------------------------------------------------
  // descendants of a menu

  predicate HasChildren(m: Menu) {
    m.children.Present? && |m.children.items| > 0
  }

  /** The ids `getAllChildIds` collects from children `k..` of `m`. */
  function DescendantsFrom(m: Menu, k: nat): seq<string>
    requires m.children.Present? ==> k <= |m.children.items|
    decreases m, if m.children.Present? then |m.children.items| - k else 0
  {
    if m.children.Absent? || k == |m.children.items| then []
    else
      var c := m.children.items[k];
      [c.id] + DescendantsFrom(c, 0) + DescendantsFrom(m, k + 1)
  }

  /** Every descendant id, in preorder: each child, then the child's own descendants. */
  function Descendants(m: Menu): seq<string> {
    DescendantsFrom(m, 0)
  }

  /** `getAllChildIds(m)`: pushes each child's id and then, recursively, its descendants'. */
  method GetAllChildIds(m: Menu) returns (ids: seq<string>)
    ensures ids == Descendants(m)
    decreases m
  {
    ids := [];
    if m.children.Present? {
      var cs := m.children.items;
      for k := 0 to |cs|
        invariant Descendants(m) == ids + DescendantsFrom(m, k)
      {
        var child := cs[k];
        assert child in m.children.items;
        assert DescendantsFrom(m, k) == [child.id] + Descendants(child) + DescendantsFrom(m, k + 1);
        var sub := GetAllChildIds(child);
        ghost var before := ids;
        ids := ids + [child.id] + sub;
        assert before + DescendantsFrom(m, k) == ids + DescendantsFrom(m, k + 1);
      }
    }
  }

  /** The ids of a menu's whole subtree, itself first. */
  function SubtreeIds(m: Menu): seq<string> {
    [m.id] + Descendants(m)
  }

  /** A leaf has no descendants. */
  lemma LeafHasNoDescendants(m: Menu)
    requires !HasChildren(m)
    ensures Descendants(m) == []
  {
  }

  /**
   * An id is a descendant exactly when it is the id of a child, or a
   * descendant of a child.
   */
  lemma {:induction false} DescendantsFromMembers(m: Menu, k: nat, id: string)
    requires m.children.Present? ==> k <= |m.children.items|
    ensures id in DescendantsFrom(m, k) <==>
      m.children.Present? &&
      (exists j :: k <= j < |m.children.items| &&
         (m.children.items[j].id == id || id in Descendants(m.children.items[j])))
    decreases if m.children.Present? then |m.children.items| - k else 0
  {
    if m.children.Present? && k < |m.children.items| {
      DescendantsFromMembers(m, k + 1, id);
      var cs := m.children.items;
      if exists j :: k <= j < |cs| && (cs[j].id == id || id in Descendants(cs[j])) {
        var j :| k <= j < |cs| && (cs[j].id == id || id in Descendants(cs[j]));
        if j > k {
          assert k + 1 <= j;
        }
      }
    }
  }

  lemma DescendantsMembers(m: Menu, id: string)
    ensures id in Descendants(m) <==>
      m.children.Present? &&
      (exists j :: 0 <= j < |m.children.items| &&
         (m.children.items[j].id == id || id in Descendants(m.children.items[j])))
  {
    DescendantsFromMembers(m, 0, id);
  }

  /** When ids are unique in the subtree, a menu is never its own descendant. */
  lemma OwnIdNotDescendant(m: Menu)
    requires Distinct(SubtreeIds(m))
    ensures m.id !in Descendants(m)
  {
    var d := Descendants(m);
    var all := SubtreeIds(m);
    assert all[0] == m.id;
    forall k | 0 <= k < |d|
      ensures d[k] != m.id
    {
      assert all[k + 1] == d[k];
      assert all[0] != all[k + 1];
    }
  }

  // ---------------------------------------------------------------------
  // checkbox state

  /** `allChildrenSelected`: true for a leaf, else every descendant is selected. */
  predicate AllChildrenSelected(m: Menu, selectedMenuIds: seq<string>) {
    if HasChildren(m) then forall id :: id in Descendants(m) ==> id in selectedMenuIds else true
  }

  /** `someChildrenSelected`: false for a leaf, else some but not all descendants are selected. */
  predicate SomeChildrenSelected(m: Menu, selectedMenuIds: seq<string>) {
    if HasChildren(m) then
      (exists id :: id in Descendants(m) && id in selectedMenuIds) && !AllChildrenSelected(m, selectedMenuIds)
    else false
  }

  /** The checkbox shows a dash when some children are selected and the menu itself is not. */
  predicate Indeterminate(m: Menu, selectedMenuIds: seq<string>) {
    SomeChildrenSelected(m, selectedMenuIds) && m.id !in selectedMenuIds
  }

  /** All selected and some-but-not-all selected never hold together. */
  lemma CheckboxStatesExclusive(m: Menu, sel: seq<string>)
    ensures !(AllChildrenSelected(m, sel) && SomeChildrenSelected(m, sel))
    ensures !HasChildren(m) ==> AllChildrenSelected(m, sel) && !SomeChildrenSelected(m, sel)
    ensures Indeterminate(m, sel) ==> HasChildren(m) && m.id !in sel
  {
  }

  // ---------------------------------------------------------------------
  // toggling

  /** `handleToggleMenu(id, checked)` applied to the previous list. */
  function ToggleMenu(prev: seq<string>, menuId: string, checked: bool): seq<string> {
    if checked then (if menuId in prev then prev else prev + [menuId])
    else Without(prev, menuId)
  }

  /** Checking adds the id only if absent; unchecking removes every occurrence; nothing else moves. */
  lemma ToggleMenuEffect(prev: seq<string>, menuId: string, checked: bool)
    ensures menuId in ToggleMenu(prev, menuId, checked) <==> checked
    ensures forall y :: y != menuId ==> (y in ToggleMenu(prev, menuId, checked) <==> y in prev)
    ensures Distinct(prev) ==> Distinct(ToggleMenu(prev, menuId, checked))
    ensures checked && menuId in prev ==> ToggleMenu(prev, menuId, checked) == prev
  {
    if !checked && Distinct(prev) {
      WithoutDistinct(prev, menuId);
    }
  }

  /** The updates of a `forEach` of `onToggle(id, checked)`, applied in order. */
  function ToggleAll(prev: seq<string>, ids: seq<string>, checked: bool): seq<string>
    decreases |ids|
  {
    if |ids| == 0 then prev else ToggleAll(ToggleMenu(prev, ids[0], checked), ids[1..], checked)
  }

  lemma {:induction false} ToggleAllEffect(prev: seq<string>, ids: seq<string>, checked: bool)
    ensures forall y :: y in ToggleAll(prev, ids, checked) <==> (if y in ids then checked else y in prev)
    ensures Distinct(prev) ==> Distinct(ToggleAll(prev, ids, checked))
    decreases |ids|
  {
    if |ids| > 0 {
      ToggleMenuEffect(prev, ids[0], checked);
      ToggleAllEffect(ToggleMenu(prev, ids[0], checked), ids[1..], checked);
      assert ids == [ids[0]] + ids[1..];
    }
  }

  /**
   * After a menu's checkbox is set, the menu and its whole subtree carry
   * that value, every other id is as it was, and the checkbox is not
   * indeterminate.
   */
  lemma ToggleSubtreeEffect(m: Menu, prev: seq<string>, checked: bool)
    ensures var next := ToggleAll(prev, SubtreeIds(m), checked);
      && (forall id :: id in SubtreeIds(m) ==> (id in next <==> checked))
      && (forall y :: y !in SubtreeIds(m) ==> (y in next <==> y in prev))
      && (checked ==> AllChildrenSelected(m, next))
      && !Indeterminate(m, next)
  {
    ToggleAllEffect(prev, SubtreeIds(m), checked);
  }

  // ---------------------------------------------------------------------
  // the page

  /** `array.slice(start, end)` for non-negative bounds: clamped to the length. */
  function Slice(s: seq<string>, start: nat, end: nat): (r: seq<string>)
    ensures |r| <= |s|
  {
    var b := if start < |s| then start else |s|;
    var e := if end < |s| then end else |s|;
    if b < e then s[b..e] else []
  }

  /** `roles.slice(page * rowsPerPage, page * rowsPerPage + rowsPerPage)`. */
  function VisibleRoles(roles: seq<string>, page: nat, rowsPerPage: nat): (r: seq<string>)
    ensures |r| <= rowsPerPage
    ensures |r| == if page * rowsPerPage >= |roles| then 0
                   else if |roles| - page * rowsPerPage < rowsPerPage then |roles| - page * rowsPerPage
                   else rowsPerPage
    ensures forall i :: 0 <= i < |r| ==> r[i] == roles[page * rowsPerPage + i]
  {
    Slice(roles, page * rowsPerPage, page * rowsPerPage + rowsPerPage)
  }

  /** Role `i` is shown on page `i / rowsPerPage`, at row `i % rowsPerPage`. */
  lemma RoleOnItsPage(roles: seq<string>, rowsPerPage: nat, i: nat)
    requires rowsPerPage > 0 && i < |roles|
    ensures i % rowsPerPage < |VisibleRoles(roles, i / rowsPerPage, rowsPerPage)|
    ensures VisibleRoles(roles, i / rowsPerPage, rowsPerPage)[i % rowsPerPage] == roles[i]
  {
    var p := i / rowsPerPage;
    assert p * rowsPerPage + i % rowsPerPage == i;
  }

  /** A page past the end is empty. */
  lemma PagePastEnd(roles: seq<string>, page: nat, rowsPerPage: nat)
    requires page * rowsPerPage >= |roles|
    ensures VisibleRoles(roles, page, rowsPerPage) == []
  {
  }

  /** The state of the role page. Role ids are `String(row.id)`. */
  class RolePage {
    var page: nat
    var rowsPerPage: nat
    var selected: seq<string>
    var selectedMenuIds: seq<string>

    constructor ()
      ensures page == 0 && rowsPerPage == 10 && selected == [] && selectedMenuIds == []
    {
      page := 0;
      rowsPerPage := 10;
      selected := [];
      selectedMenuIds := [];
    }

    /** `handleToggleMenu`. */
    method ToggleMenuId(menuId: string, checked: bool)
      modifies this
      ensures selectedMenuIds == ToggleMenu(old(selectedMenuIds), menuId, checked)
      ensures page == old(page) && rowsPerPage == old(rowsPerPage) && selected == old(selected)
    {
      selectedMenuIds := ToggleMenu(selectedMenuIds, menuId, checked);
    }

    /** `handleToggle(checked)` of a menu's checkbox: the menu, then each descendant. */
    method ToggleTree(m: Menu, checked: bool)
      modifies this
      ensures selectedMenuIds == ToggleAll(old(selectedMenuIds), SubtreeIds(m), checked)
      ensures page == old(page) && rowsPerPage == old(rowsPerPage) && selected == old(selected)
    {
      ToggleMenuId(m.id, checked);
      if HasChildren(m) {
        var ids := GetAllChildIds(m);
        for k := 0 to |ids|
          invariant selectedMenuIds == ToggleAll(ToggleMenu(old(selectedMenuIds), m.id, checked), ids[..k], checked)
          invariant page == old(page) && rowsPerPage == old(rowsPerPage) && selected == old(selected)
        {
          ToggleAllSnoc(ToggleMenu(old(selectedMenuIds), m.id, checked), ids[..k], ids[k], checked);
          assert ids[..k + 1] == ids[..k] + [ids[k]];
          ToggleMenuId(ids[k], checked);
        }
        assert ids[..|ids|] == ids;
      } else {
        assert Descendants(m) == [];
      }
    }

    /** `handleSelectRow(id)`. */
    method SelectRow(id: string)
      modifies this
      ensures selected == ToggleRow(old(selected), id)
      ensures page == old(page) && rowsPerPage == old(rowsPerPage) && selectedMenuIds == old(selectedMenuIds)
    {
      selected := ToggleRow(selected, id);
    }

    /** `onPageChange`. */
    method ChangePage(newPage: nat)
      modifies this
      ensures page == newPage
      ensures rowsPerPage == old(rowsPerPage) && selected == old(selected) && selectedMenuIds == old(selectedMenuIds)
    {
      page := newPage;
    }

    /** `onRowsPerPageChange`: the new size, back to the first page. */
    method ChangeRowsPerPage(value: nat)
      modifies this
      ensures rowsPerPage == value && page == 0
      ensures selected == old(selected) && selectedMenuIds == old(selectedMenuIds)
    {
      rowsPerPage := value;
      page := 0;
    }
  }

  lemma {:induction false} ToggleAllSnoc(prev: seq<string>, ids: seq<string>, id: string, checked: bool)
    ensures ToggleAll(prev, ids + [id], checked) == ToggleMenu(ToggleAll(prev, ids, checked), id, checked)
    decreases |ids|
  {
    if |ids| == 0 {
      assert ids + [id] == [id];
    } else {
      ToggleAllSnoc(ToggleMenu(prev, ids[0], checked), ids[1..], id, checked);
      assert (ids + [id])[1..] == ids[1..] + [id];
    }
  }
}
