/**
 * The client hook that turns the authorized menu tree into navigation
 * items: at every level it keeps the enabled menus, orders them by
 * `menuSort` with a stable sort, and maps each to an item whose title is
 * the translation of its i18n key, else its title, else its name.
 */
module NavMenus {
  import opened Wrappers

  datatype MenuMeta = MenuMeta(icon: Option<string>, title: Option<string>, i18n: Option<string>)

  /** A menu as the client receives it; `children` may be absent. */
  datatype Menu = Menu(
    id: string,
    name: string,
    path: string,
    state: bool,
    menuSort: int,
    meta: Option<MenuMeta>,
    children: Children)

  /** The `children` field of a menu: absent, or an array (possibly empty). */
  datatype Children = Absent | Present(items: seq<Menu>)

  /** A navigation item; `icon` is the icon name the item shows. */
  datatype NavItem = NavItem(title: string, path: string, icon: Option<string>, children: Option<seq<NavItem>>)

  // ---------------------------------------------------------------------
  // filter and stable sort

  /** `.filter(m => m.state)`. */
  function Enabled(s: seq<Menu>): (r: seq<Menu>)
    ensures |r| <= |s|
    ensures forall m :: m in r <==> m in s && m.state
    ensures |s| == 1 ==> r == if s[0].state then s else []
    decreases |s|
  {
    if |s| == 0 then []
    else (if s[0].state then [s[0]] else []) + Enabled(s[1..])
  }

  /** The filter works element by element: it distributes over concatenation. */
  lemma {:induction false} EnabledConcat(a: seq<Menu>, b: seq<Menu>)
    ensures Enabled(a + b) == Enabled(a) + Enabled(b)
    decreases |a|
  {
    if |a| == 0 {
      assert a + b == b;
    } else {
      assert (a + b)[0] == a[0] && (a + b)[1..] == a[1..] + b;
      EnabledConcat(a[1..], b);
    }
  }

  ghost predicate SortedByMenuSort(s: seq<Menu>) {
    forall i, j :: 0 <= i < j < |s| ==> s[i].menuSort <= s[j].menuSort
  }

  /** Places `x` after every element whose `menuSort` is not greater. */
  function Insert(x: Menu, sorted: seq<Menu>): (r: seq<Menu>)
    ensures |r| == |sorted| + 1
    ensures forall m :: m in r <==> m == x || m in sorted
    decreases |sorted|
  {
    if |sorted| == 0 then [x]
    else if x.menuSort < sorted[0].menuSort then [x] + sorted
    else
      assert sorted == [sorted[0]] + sorted[1..];
      [sorted[0]] + Insert(x, sorted[1..])
  }

  /**
   * `.sort((a, b) => a.menuSort - b.menuSort)`: a stable sort, written as
   * an insertion of each element, in order, after its equals.
   */
  function SortByMenuSort(s: seq<Menu>): (r: seq<Menu>)
    ensures |r| == |s|
    decreases |s|
  {
    if |s| == 0 then []
    else
      assert s == s[..|s| - 1] + [s[|s| - 1]];
      Insert(s[|s| - 1], SortByMenuSort(s[..|s| - 1]))
  }

  lemma {:induction false} InsertPermutes(x: Menu, sorted: seq<Menu>)
    ensures multiset(Insert(x, sorted)) == multiset(sorted) + multiset{x}
    decreases |sorted|
  {
    if |sorted| > 0 && x.menuSort >= sorted[0].menuSort {
      InsertPermutes(x, sorted[1..]);
      assert sorted == [sorted[0]] + sorted[1..];
    }
  }

  /** The sort only reorders: it is a permutation of its input. */
  lemma {:induction false} SortPermutes(s: seq<Menu>)
    ensures multiset(SortByMenuSort(s)) == multiset(s)
    decreases |s|
  {
    if |s| > 0 {
      SortPermutes(s[..|s| - 1]);
      InsertPermutes(s[|s| - 1], SortByMenuSort(s[..|s| - 1]));
      MultisetSnoc(s);
    }
  }

  lemma MultisetSnoc(s: seq<Menu>)
    requires |s| > 0
    ensures multiset(s) == multiset(s[..|s| - 1]) + multiset{s[|s| - 1]}
  {
    assert s == s[..|s| - 1] + [s[|s| - 1]];
  }

  /** The menus of one level that become items, in item order. */
  function Shown(s: seq<Menu>): (r: seq<Menu>)
    ensures forall m :: m in r <==> m in s && m.state
  {
    SortPermutes(Enabled(s));
    assert forall m :: m in SortByMenuSort(Enabled(s)) <==> m in multiset(Enabled(s));
    SortByMenuSort(Enabled(s))
  }

  lemma {:induction false} InsertSorted(x: Menu, sorted: seq<Menu>)
    requires SortedByMenuSort(sorted)
    ensures SortedByMenuSort(Insert(x, sorted))
    decreases |sorted|
  {
    if |sorted| > 0 && x.menuSort >= sorted[0].menuSort {
      InsertSorted(x, sorted[1..]);
      var r := Insert(x, sorted[1..]);
      forall j | 0 < j < |r| + 1
        ensures sorted[0].menuSort <= ([sorted[0]] + r)[j].menuSort
      {
        var m := r[j - 1];
        assert m in r;
        if m != x {
          var k :| 0 <= k < |sorted[1..]| && sorted[1..][k] == m;
          assert sorted[k + 1] == m;
        }
      }
    }
  }

  /** The sort orders by `menuSort`. */
  lemma {:induction false} SortSorted(s: seq<Menu>)
    ensures SortedByMenuSort(SortByMenuSort(s))
    decreases |s|
  {
    if |s| > 0 {
      SortSorted(s[..|s| - 1]);
      InsertSorted(s[|s| - 1], SortByMenuSort(s[..|s| - 1]));
    }
  }

  /** The elements of `s` whose `menuSort` is `k`, in order. */
  function WithKey(s: seq<Menu>, k: int): seq<Menu>
    decreases |s|
  {
    if |s| == 0 then []
    else (if s[0].menuSort == k then [s[0]] else []) + WithKey(s[1..], k)
  }

  lemma {:induction false} WithKeyAppend(a: seq<Menu>, b: seq<Menu>, k: int)
    ensures WithKey(a + b, k) == WithKey(a, k) + WithKey(b, k)
    decreases |a|
  {
    if |a| > 0 {
      WithKeyAppend(a[1..], b, k);
      assert (a + b)[1..] == a[1..] + b;
    } else {
      assert a + b == b;
    }
  }

  lemma {:induction false} WithKeyAbove(s: seq<Menu>, k: int)
    requires forall i :: 0 <= i < |s| ==> s[i].menuSort > k
    ensures WithKey(s, k) == []
    decreases |s|
  {
    if |s| > 0 {
      WithKeyAbove(s[1..], k);
    }
  }

  lemma {:induction false} InsertWithKey(x: Menu, sorted: seq<Menu>, k: int)
    requires SortedByMenuSort(sorted)
    ensures WithKey(Insert(x, sorted), k) == WithKey(sorted, k) + (if x.menuSort == k then [x] else [])
    decreases |sorted|
  {
    if |sorted| == 0 {
    } else if x.menuSort < sorted[0].menuSort {
      if x.menuSort == k {
        WithKeyAbove(sorted, k);
      }
      WithKeyAppend([x], sorted, k);
    } else {
      InsertWithKey(x, sorted[1..], k);
    }
  }

  /** The sort is stable: menus with equal `menuSort` keep their relative order. */
  lemma {:induction false} SortStable(s: seq<Menu>, k: int)
    ensures WithKey(SortByMenuSort(s), k) == WithKey(s, k)
    decreases |s|
  {
    if |s| > 0 {
      var front := s[..|s| - 1];
      var last := s[|s| - 1];
      SortStable(front, k);
      SortSorted(front);
      InsertWithKey(last, SortByMenuSort(front), k);
      assert s == front + [last];
      WithKeyAppend(front, [last], k);
    }
  }

  /** One level's shown menus are the enabled ones, sorted, in a stable order. */
  lemma ShownLevel(s: seq<Menu>, k: int)
    ensures SortedByMenuSort(Shown(s))
    ensures multiset(Shown(s)) == multiset(Enabled(s))
    ensures WithKey(Shown(s), k) == WithKey(Enabled(s), k)
  {
    SortSorted(Enabled(s));
    SortPermutes(Enabled(s));
    SortStable(Enabled(s), k);
  }

  // ---------------------------------------------------------------------
  // the transform

  /** `meta?.i18n ? t(meta.i18n) : (meta?.title || name)`. */
  function Title(menu: Menu, t: string -> string): string {
    if menu.meta.Some? && menu.meta.value.i18n.Some? && menu.meta.value.i18n.value != "" then
      t(menu.meta.value.i18n.value)
    else if menu.meta.Some? && menu.meta.value.title.Some? && menu.meta.value.title.value != "" then
      menu.meta.value.title.value
    else menu.name
  }

  /** The icon shown when `meta.icon` is set and non-empty. */
  function Icon(menu: Menu): Option<string> {
    if menu.meta.Some? && menu.meta.value.icon.Some? && menu.meta.value.icon.value != "" then
      Some(menu.meta.value.icon.value)
    else None
  }

  /** `transformMenuToNavItem(menu, t)`. */
  function Transform(menu: Menu, t: string -> string): (item: NavItem)
    ensures item.title == Title(menu, t) && item.path == menu.path
    ensures item.icon == Icon(menu)
    ensures item.children.Some? <==> menu.children.Present? && |menu.children.items| > 0
    ensures item.children.Some? ==> |item.children.value| == |Shown(menu.children.items)|
    decreases menu
  {
    var children :=
      if menu.children.Present? && |menu.children.items| > 0 then
        var kept := Shown(menu.children.items);
        Some(seq(|kept|, i requires 0 <= i < |kept| =>
          assert kept[i] in menu.children.items;
          Transform(kept[i], t)))
      else None;
    NavItem(Title(menu, t), menu.path, Icon(menu), children)
  }

  /** The top-level pass: nothing when there are no menus, else the shown ones transformed. */
  function NavData(menus: seq<Menu>, t: string -> string): (items: seq<NavItem>)
    ensures menus == [] ==> items == []
    ensures |items| == |Shown(menus)|
  {
    if |menus| > 0 then
      var kept := Shown(menus);
      seq(|kept|, i requires 0 <= i < |kept| => Transform(kept[i], t))
    else []
  }

  /** The title rule: translation of the i18n key, else the title, else the name. */
  lemma TitleChoice(menu: Menu, t: string -> string)
    ensures menu.meta.Some? && menu.meta.value.i18n.Some? && menu.meta.value.i18n.value != "" ==>
      Title(menu, t) == t(menu.meta.value.i18n.value)
    ensures ((menu.meta.None? || menu.meta.value.i18n.None? || menu.meta.value.i18n.value == "") &&
      menu.meta.Some? && menu.meta.value.title.Some? && menu.meta.value.title.value != "") ==>
      Title(menu, t) == menu.meta.value.title.value
    ensures (menu.meta.None? || ((menu.meta.value.i18n.None? || menu.meta.value.i18n.value == "") &&
      (menu.meta.value.title.None? || menu.meta.value.title.value == ""))) ==> Title(menu, t) == menu.name
  {
  }

  /**
   * Every item of a level comes from an enabled menu of the same level, in
   * the shown order; so a disabled menu and everything under it are hidden.
   */
  lemma ItemsComeFromEnabledMenus(menu: Menu, t: string -> string, i: nat)
    requires Transform(menu, t).children.Some? && i < |Transform(menu, t).children.value|
    ensures menu.children.Present?
    ensures Shown(menu.children.items)[i].state && Shown(menu.children.items)[i] in menu.children.items
    ensures Transform(menu, t).children.value[i] == Transform(Shown(menu.children.items)[i], t)
  {
    assert Shown(menu.children.items)[i] in Shown(menu.children.items);
  }

  /** A menu with children, none enabled, gets an empty children list, not none. */
  lemma AllChildrenDisabled(menu: Menu, t: string -> string)
    requires menu.children.Present? && |menu.children.items| > 0
    requires forall c :: c in menu.children.items ==> !c.state
    ensures Transform(menu, t).children == Some([])
  {
    assert Enabled(menu.children.items) == [] by {
      if Enabled(menu.children.items) != [] {
        assert Enabled(menu.children.items)[0] in Enabled(menu.children.items);
      }
    }
  }

  /** The same for the top level: its items are the shown menus, transformed in order. */
  lemma TopLevelItems(menus: seq<Menu>, t: string -> string, i: nat)
    requires i < |NavData(menus, t)|
    ensures Shown(menus)[i].state && Shown(menus)[i] in menus
    ensures NavData(menus, t)[i] == Transform(Shown(menus)[i], t)
  {
    assert Shown(menus)[i] in Shown(menus);
  }
}
