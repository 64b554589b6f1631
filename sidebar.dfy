/** The sidebar: the menu entries the current role sees, which entry is
    active, what a click does, and the count badge of an entry. */
module Sidebar {
  import opened Wrappers
  import opened Text
  import opened Sequences
  import opened AppConstants

  /** `MENU_ITEMS.filter(item => item.roles.includes(role))`. */
  function VisibleItems(items: seq<MenuItem>, role: UserRole): (r: seq<MenuItem>)
    ensures |r| <= |items|
  {
    if items == [] then []
    else (if role in items[0].roles then [items[0]] else []) + VisibleItems(items[1..], role)
  }

  /** An entry is visible exactly when it is in the menu and lists the role. */
  lemma {:induction false} VisibleMembership(items: seq<MenuItem>, role: UserRole)
    ensures forall m :: m in VisibleItems(items, role) <==> m in items && role in m.roles
  {
    if items != [] {
      VisibleMembership(items[1..], role);
      assert items == [items[0]] + items[1..];
    }
  }

  /** The visible entries keep the menu's order. */
  lemma {:induction false} VisibleKeepsOrder(items: seq<MenuItem>, role: UserRole)
    ensures Subsequence(VisibleItems(items, role), items)
  {
    if items != [] {
      VisibleKeepsOrder(items[1..], role);
      var r := VisibleItems(items, role);
      if role in items[0].roles {
        assert r[0] == items[0] && r[1..] == VisibleItems(items[1..], role);
      } else {
        assert r == VisibleItems(items[1..], role);
        if r != [] {
          assert Subsequence(r, items[1..]);
        }
      }
    }
  }


  /** The menu of each role, in order: the employee sees dashboard, profile,
      requests, activities and rewards; the manager also team management and
      reports; HR also employee management, HR management and reports; the
      administrator also employee management, reports and system settings. */
  lemma EmployeeMenuTail()
    ensures VisibleItems(MenuItems[5..], Employee) == [MenuItems[5]]
  {
    var s := MenuItems;
    assert s[10..] == [];
    assert s[9..][1..] == s[10..];
    assert VisibleItems(s[9..], Employee) == [];
    assert s[8..][1..] == s[9..];
    assert VisibleItems(s[8..], Employee) == [];
    assert s[7..][1..] == s[8..];
    assert VisibleItems(s[7..], Employee) == [];
    assert s[6..][1..] == s[7..];
    assert VisibleItems(s[6..], Employee) == [];
    assert s[5..][1..] == s[6..];
    assert VisibleItems(s[5..], Employee) == [s[5]];
  }

  lemma EmployeeMenuMid()
    ensures VisibleItems(MenuItems[2..], Employee) == [MenuItems[3], MenuItems[4], MenuItems[5]]
  {
    var s := MenuItems;
    EmployeeMenuTail();
    assert s[4..][1..] == s[5..];
    assert VisibleItems(s[4..], Employee) == [s[4], s[5]];
    assert s[3..][1..] == s[4..];
    assert VisibleItems(s[3..], Employee) == [s[3], s[4], s[5]];
    assert s[2..][1..] == s[3..];
  }

  lemma EmployeeMenu()
    ensures VisibleItems(MenuItems, Employee) == [MenuItems[0], MenuItems[1], MenuItems[3], MenuItems[4], MenuItems[5]]
  {
    var s := MenuItems;
    EmployeeMenuMid();
    assert s[1..][1..] == s[2..];
    assert VisibleItems(s[1..], Employee) == [s[1], s[3], s[4], s[5]];
    assert s[0..][1..] == s[1..];
    assert s[0..] == s;
  }

  lemma ManagerMenuTail()
    ensures VisibleItems(MenuItems[5..], Manager) == [MenuItems[5], MenuItems[6], MenuItems[8]]
  {
    var s := MenuItems;
    assert s[10..] == [];
    assert s[9..][1..] == s[10..];
    assert VisibleItems(s[9..], Manager) == [];
    assert s[8..][1..] == s[9..];
    assert VisibleItems(s[8..], Manager) == [s[8]];
    assert s[7..][1..] == s[8..];
    assert VisibleItems(s[7..], Manager) == [s[8]];
    assert s[6..][1..] == s[7..];
    assert VisibleItems(s[6..], Manager) == [s[6], s[8]];
    assert s[5..][1..] == s[6..];
    assert VisibleItems(s[5..], Manager) == [s[5], s[6], s[8]];
  }

  lemma ManagerMenuMid()
    ensures VisibleItems(MenuItems[2..], Manager) == [MenuItems[3], MenuItems[4], MenuItems[5], MenuItems[6], MenuItems[8]]
  {
    var s := MenuItems;
    ManagerMenuTail();
    assert s[4..][1..] == s[5..];
    assert VisibleItems(s[4..], Manager) == [s[4], s[5], s[6], s[8]];
    assert s[3..][1..] == s[4..];
    assert VisibleItems(s[3..], Manager) == [s[3], s[4], s[5], s[6], s[8]];
    assert s[2..][1..] == s[3..];
  }

  lemma ManagerMenu()
    ensures VisibleItems(MenuItems, Manager) == [MenuItems[0], MenuItems[1], MenuItems[3], MenuItems[4], MenuItems[5], MenuItems[6], MenuItems[8]]
  {
    var s := MenuItems;
    ManagerMenuMid();
    assert s[1..][1..] == s[2..];
    assert VisibleItems(s[1..], Manager) == [s[1], s[3], s[4], s[5], s[6], s[8]];
    assert s[0..][1..] == s[1..];
    assert s[0..] == s;
  }

  lemma HrMenuTail()
    ensures VisibleItems(MenuItems[5..], Hr) == [MenuItems[5], MenuItems[7], MenuItems[8]]
  {
    var s := MenuItems;
    assert s[10..] == [];
    assert s[9..][1..] == s[10..];
    assert VisibleItems(s[9..], Hr) == [];
    assert s[8..][1..] == s[9..];
    assert VisibleItems(s[8..], Hr) == [s[8]];
    assert s[7..][1..] == s[8..];
    assert VisibleItems(s[7..], Hr) == [s[7], s[8]];
    assert s[6..][1..] == s[7..];
    assert VisibleItems(s[6..], Hr) == [s[7], s[8]];
    assert s[5..][1..] == s[6..];
    assert VisibleItems(s[5..], Hr) == [s[5], s[7], s[8]];
  }

  lemma HrMenuMid()
    ensures VisibleItems(MenuItems[2..], Hr) == [MenuItems[2], MenuItems[3], MenuItems[4], MenuItems[5], MenuItems[7], MenuItems[8]]
  {
    var s := MenuItems;
    HrMenuTail();
    assert s[4..][1..] == s[5..];
    assert VisibleItems(s[4..], Hr) == [s[4], s[5], s[7], s[8]];
    assert s[3..][1..] == s[4..];
    assert VisibleItems(s[3..], Hr) == [s[3], s[4], s[5], s[7], s[8]];
    assert s[2..][1..] == s[3..];
  }

  lemma HrMenu()
    ensures VisibleItems(MenuItems, Hr) == [MenuItems[0], MenuItems[1], MenuItems[2], MenuItems[3], MenuItems[4], MenuItems[5], MenuItems[7], MenuItems[8]]
  {
    var s := MenuItems;
    HrMenuMid();
    assert s[1..][1..] == s[2..];
    assert VisibleItems(s[1..], Hr) == [s[1], s[2], s[3], s[4], s[5], s[7], s[8]];
    assert s[0..][1..] == s[1..];
    assert s[0..] == s;
  }

  lemma AdminMenuTail()
    ensures VisibleItems(MenuItems[5..], Admin) == [MenuItems[5], MenuItems[8], MenuItems[9]]
  {
    var s := MenuItems;
    assert s[10..] == [];
    assert s[9..][1..] == s[10..];
    assert VisibleItems(s[9..], Admin) == [s[9]];
    assert s[8..][1..] == s[9..];
    assert VisibleItems(s[8..], Admin) == [s[8], s[9]];
    assert s[7..][1..] == s[8..];
    assert VisibleItems(s[7..], Admin) == [s[8], s[9]];
    assert s[6..][1..] == s[7..];
    assert VisibleItems(s[6..], Admin) == [s[8], s[9]];
    assert s[5..][1..] == s[6..];
    assert VisibleItems(s[5..], Admin) == [s[5], s[8], s[9]];
  }

  lemma AdminMenuMid()
    ensures VisibleItems(MenuItems[2..], Admin) == [MenuItems[2], MenuItems[3], MenuItems[4], MenuItems[5], MenuItems[8], MenuItems[9]]
  {
    var s := MenuItems;
    AdminMenuTail();
    assert s[4..][1..] == s[5..];
    assert VisibleItems(s[4..], Admin) == [s[4], s[5], s[8], s[9]];
    assert s[3..][1..] == s[4..];
    assert VisibleItems(s[3..], Admin) == [s[3], s[4], s[5], s[8], s[9]];
    assert s[2..][1..] == s[3..];
  }

  lemma AdminMenu()
    ensures VisibleItems(MenuItems, Admin) == [MenuItems[0], MenuItems[1], MenuItems[2], MenuItems[3], MenuItems[4], MenuItems[5], MenuItems[8], MenuItems[9]]
  {
    var s := MenuItems;
    AdminMenuMid();
    assert s[1..][1..] == s[2..];
    assert VisibleItems(s[1..], Admin) == [s[1], s[2], s[3], s[4], s[5], s[8], s[9]];
    assert s[0..][1..] == s[1..];
    assert s[0..] == s;
  }

  /** `activePath === item.path`. */
  predicate IsActive(item: MenuItem, activePath: string) {
    item.path == activePath
  }

  /** Whatever the role and the current path, at most one visible entry is
      active. */
  lemma AtMostOneActive(role: UserRole, activePath: string, m1: MenuItem, m2: MenuItem)
    requires m1 in VisibleItems(MenuItems, role) && m2 in VisibleItems(MenuItems, role)
    requires IsActive(m1, activePath) && IsActive(m2, activePath)
    ensures m1 == m2
  {
    MenuKeysDistinct();
    VisibleMembership(MenuItems, role);
    var i :| 0 <= i < |MenuItems| && MenuItems[i] == m1;
    var j :| 0 <= j < |MenuItems| && MenuItems[j] == m2;
  }

  const MobileBreakpoint: int := 1024

  /** What a click on an entry does: navigate to its path, and on a window
      narrower than the breakpoint also close the sidebar. */
  datatype Navigation = Navigation(navigateTo: string, closeSidebar: bool)

  function HandleNavigation(path: string, innerWidth: int): (r: Navigation)
    ensures r.navigateTo == path
    ensures r.closeSidebar <==> innerWidth < MobileBreakpoint
  {
    Navigation(path, innerWidth < MobileBreakpoint)
  }

  /** After a click on a visible entry, once the new path is the active one,
      that entry is the only visible one shown active. */
  lemma ClickedEntryIsActive(role: UserRole, item: MenuItem, innerWidth: int)
    requires item in VisibleItems(MenuItems, role)
    ensures var path := HandleNavigation(item.path, innerWidth).navigateTo;
      IsActive(item, path) &&
      forall m :: m in VisibleItems(MenuItems, role) && IsActive(m, path) ==> m == item
  {
    var path := HandleNavigation(item.path, innerWidth).navigateTo;
    VisibleMembership(MenuItems, role);
    forall m | m in VisibleItems(MenuItems, role) && IsActive(m, path)
      ensures m == item
    {
      AtMostOneActive(role, path, m, item);
    }
  }

  // ---- The badge ----

  const BadgeCap: string := "99+"

  /** What `{item.badge && item.badge > 0 && <span>…</span>}` renders: no
      badge for an absent or negative count, but a zero count is itself the
      value of the expression, and a number is rendered as text. */
  function BadgeAsWritten(badge: Option<int>): (r: Option<string>)
    ensures badge.None? ==> r.None?
    ensures badge.Some? && badge.value < 0 ==> r.None?
  {
    if badge.None? then None
    else if badge.value == 0 then Some(IntToString(0))
    else if badge.value < 0 then None
    else if badge.value > 99 then Some(BadgeCap)
    else Some(IntToString(badge.value))
  }

  /** An entry with a zero count shows a stray "0". */
  lemma ZeroBadgeShowsZero()
    ensures BadgeAsWritten(Some(0)) == Some("0")
  {
  }

  /** The badge as intended: shown only for a positive count, capped at
      "99+". */
  function Badge(badge: Option<int>): (r: Option<string>)
    ensures r.Some? <==> badge.Some? && badge.value > 0
    ensures r.Some? ==> (r.value == BadgeCap <==> badge.value > 99)
    ensures r.Some? && badge.value <= 99 ==> AllDigits(r.value) && ParseNat(r.value) == badge.value
  {
    if badge.Some? && badge.value > 0 then
      if badge.value > 99 then Some(BadgeCap)
      else
        ParseNatToString(badge.value);
        assert BadgeCap[2] == '+' && !IsDigit('+');
        Some(IntToString(badge.value))
    else None
  }

  /** The two agree on every count but zero. */
  lemma BadgeAgreesExceptZero(badge: Option<int>)
    ensures badge != Some(0) ==> BadgeAsWritten(badge) == Badge(badge)
    ensures BadgeAsWritten(Some(0)).Some? && Badge(Some(0)).None?
  {
  }

  /** No entry of the menu has a count, so the stray "0" is not shown today. */
  lemma MenuShowsNoBadge(role: UserRole)
    ensures forall m :: m in VisibleItems(MenuItems, role) ==> Badge(m.badge).None? && BadgeAsWritten(m.badge).None?
  {
    MenuHasNoBadges();
    VisibleMembership(MenuItems, role);
  }
}
