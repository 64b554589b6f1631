/** The application's role names and its navigation menu: which roles see
    which entry. Labels and icons are display text and are kept only as the
    icon name. */
module AppConstants {
  import opened Wrappers
  import Dtos

  /** `USER_ROLES`: the four roles, with the name the session stores. */
  datatype UserRole = Admin | Hr | Manager | Employee {
    function Name(): string {
      match this
      case Admin => "admin"
      case Hr => "hr"
      case Manager => "manager"
      case Employee => "employee"
    }

    /** The id the role table documents for the role, as in the database. */
    function Id(): int {
      match this
      case Admin => 1
      case Hr => 2
      case Manager => 3
      case Employee => 4
    }
  }

  /** The role whose stored name is `name`, if any. */
  function RoleNamed(name: string): (r: Option<UserRole>)
    ensures r.Some? ==> r.value.Name() == name
  {
    if name == "admin" then Some(Admin)
    else if name == "hr" then Some(Hr)
    else if name == "manager" then Some(Manager)
    else if name == "employee" then Some(Employee)
    else None
  }

  datatype MenuItem = MenuItem(id: string, icon: string, path: string, roles: seq<UserRole>, badge: Option<int>)

  const Everyone: seq<UserRole> := [Employee, Manager, Hr, Admin]

  /** `MENU_ITEMS`, in order. */
  const MenuItems: seq<MenuItem> := [
    MenuItem("dashboard", "Home", "/dashboard", Everyone, None),
    MenuItem("my-profile", "User", "/profile", Everyone, None),
    MenuItem("employee-management", "Users", "/employees", [Hr, Admin], None),
    MenuItem("request-management", "FileText", "/requests", Everyone, None),
    MenuItem("activity-management", "Activity", "/activities", Everyone, None),
    MenuItem("reward-system", "Award", "/rewards", Everyone, None),
    MenuItem("team-management", "Users2", "/team", [Manager], None),
    MenuItem("hr-management", "UserCheck", "/hr", [Hr], None),
    MenuItem("reports", "BarChart3", "/reports", [Manager, Hr, Admin], None),
    MenuItem("system-settings", "Settings", "/settings", [Admin], None)
  ]

  /** Names and ids identify roles: each name reads back as its role, and
      the regular employee's id is the role a new employee gets when none
      is given. */
  lemma RolesAgreeWithDatabase()
    ensures forall r: UserRole :: RoleNamed(r.Name()) == Some(r)
    ensures forall r: UserRole, q: UserRole :: r.Id() == q.Id() ==> r == q
    ensures Employee.Id() == Dtos.DefaultRoleId
  {
    forall r: UserRole ensures RoleNamed(r.Name()) == Some(r) {
      match r
      case Admin =>
      case Hr => assert "hr" != "admin";
      case Manager => assert "manager"[0] != "admin"[0] && "manager"[0] != "hr"[0];
      case Employee => assert "employee"[0] != "admin"[0] && "employee"[0] != "hr"[0] && "employee"[0] != "manager"[0];
    }
  }

  /** Menu ids and menu paths are pairwise distinct. */
  lemma MenuKeysDistinct()
    ensures forall i, j :: 0 <= i < |MenuItems| && 0 <= j < |MenuItems| && MenuItems[i].id == MenuItems[j].id ==> i == j
    ensures forall i, j :: 0 <= i < |MenuItems| && 0 <= j < |MenuItems| && MenuItems[i].path == MenuItems[j].path ==> i == j
  {
    MenuIdsDistinct();
    MenuPathsDistinct();
  }

  lemma MenuIdsDistinct()
    ensures forall i, j :: 0 <= i < |MenuItems| && 0 <= j < |MenuItems| && MenuItems[i].id == MenuItems[j].id ==> i == j
  {
  }

  lemma MenuPathsDistinct()
    ensures forall i, j :: 0 <= i < |MenuItems| && 0 <= j < |MenuItems| && MenuItems[i].path == MenuItems[j].path ==> i == j
  {
  }

  /** No entry carries a badge. */
  lemma MenuHasNoBadges()
    ensures forall m :: m in MenuItems ==> m.badge.None?
  {
  }
}
