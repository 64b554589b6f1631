/** The persistence layer of the HR backend: the tables the Employee
    aggregate touches, the unique indexes and foreign keys declared in
    `HrmDbContext.OnModelCreating`, and what inserting, updating and
    deleting rows does under those declarations. Each table is a map from
    primary key to row. */
module Store {
  import opened Wrappers

  type Id = int

  /** An instant (`DateTime`); clock reads are parameters of the callers. */
  type Timestamp = int

  /** A calendar date (`DateOnly`). */
  datatype Date = Date(year: int, month: int, day: int)

  datatype Role = Role(id: Id, name: string, description: Option<string>, createdAt: Option<Timestamp>)

  datatype Department = Department(
    id: Id, name: string, managerId: Option<Id>,
    createdAt: Option<Timestamp>, updatedAt: Option<Timestamp>)

  datatype Employee = Employee(
    id: Id,
    fullname: string,
    cccd: string,
    taxCode: Option<string>,
    phone: Option<string>,
    address: Option<string>,
    bankAccount: Option<string>,
    joinDate: Date,
    status: Option<string>,
    birthday: Option<Date>,
    gender: Option<string>,
    email: string,
    roleId: Id,
    departmentId: Option<Id>,
    createdAt: Option<Timestamp>,
    updatedAt: Option<Timestamp>)

  datatype Point = Point(id: Id, employeeId: Id, pointTotal: Option<int>, lastUpdate: Option<Timestamp>)

  // Rows of the remaining tables, reduced to the columns that take part in
  // a unique index or a foreign key; the map key is the row's Id.
  datatype UserAccount = UserAccount(employeeId: Id, username: string)
  datatype UserToken = UserToken(userId: Id)
  datatype PointTransaction = PointTransaction(employeeId: Id, actorId: Option<Id>)
  datatype Activity = Activity(createdBy: Option<Id>)
  datatype Participation = Participation(employeeId: Id, activityId: Id)
  datatype Attendance = Attendance(employeeId: Id, date: Date)
  datatype Request = Request(employeeId: Id)
  datatype Approval = Approval(requestId: Id, approverId: Id)
  datatype ConversionRule = ConversionRule(updatedBy: Option<Id>)
  datatype PointToMoney = PointToMoney(employeeId: Id)

  /** The database: one map per table, plus the next values of the
      identity columns of Employee and Point. */
  datatype Db = Db(
    roles: map<Id, Role>,
    departments: map<Id, Department>,
    employees: map<Id, Employee>,
    points: map<Id, Point>,
    accounts: map<Id, UserAccount>,
    refreshTokens: map<Id, UserToken>,
    resetTokens: map<Id, UserToken>,
    transactions: map<Id, PointTransaction>,
    activities: map<Id, Activity>,
    participations: map<Id, Participation>,
    attendances: map<Id, Attendance>,
    requests: map<Id, Request>,
    approvals: map<Id, Approval>,
    rules: map<Id, ConversionRule>,
    conversions: map<Id, PointToMoney>,
    nextEmployeeId: Id,
    nextPointId: Id)

  datatype DbError =
    | UniqueViolation(index: string)
    | ForeignKeyViolation(constraint: string)
    | RowNotFound
    | Failure(message: string)

  /** A nullable foreign key that is null or names an existing row. */
  predicate RefOk(r: Option<Id>, keys: set<Id>) {
    r.None? || r.value in keys
  }

  /** Every row is stored under its own primary key. */
  ghost predicate Keyed(db: Db) {
    (forall k | k in db.roles :: db.roles[k].id == k) &&
    (forall k | k in db.departments :: db.departments[k].id == k) &&
    (forall k | k in db.employees :: db.employees[k].id == k) &&
    (forall k | k in db.points :: db.points[k].id == k)
  }

  /** The identity columns hand out keys above every key in use. */
  ghost predicate FreshIdentities(db: Db) {
    (forall k | k in db.employees :: k < db.nextEmployeeId) &&
    (forall k | k in db.points :: k < db.nextPointId)
  }

  // ---- Unique indexes ----

  ghost predicate UniqueEmail(db: Db) {
    forall a, b | a in db.employees && b in db.employees && a != b ::
      db.employees[a].email != db.employees[b].email
  }

  ghost predicate UniqueCccd(db: Db) {
    forall a, b | a in db.employees && b in db.employees && a != b ::
      db.employees[a].cccd != db.employees[b].cccd
  }

  ghost predicate UniqueUsername(db: Db) {
    forall a, b | a in db.accounts && b in db.accounts && a != b ::
      db.accounts[a].username != db.accounts[b].username
  }

  ghost predicate UniqueParticipation(db: Db) {
    forall a, b | a in db.participations && b in db.participations && a != b ::
      db.participations[a] != db.participations[b]
  }

  ghost predicate UniqueAttendance(db: Db) {
    forall a, b | a in db.attendances && b in db.attendances && a != b ::
      db.attendances[a] != db.attendances[b]
  }

  /** The one-to-one relations put a unique index on the dependent's key. */
  ghost predicate OneToOne(db: Db) {
    (forall a, b | a in db.points && b in db.points && a != b ::
      db.points[a].employeeId != db.points[b].employeeId) &&
    (forall a, b | a in db.accounts && b in db.accounts && a != b ::
      db.accounts[a].employeeId != db.accounts[b].employeeId)
  }

  ghost predicate UniqueIndexes(db: Db) {
    UniqueEmail(db) && UniqueCccd(db) && UniqueUsername(db) &&
    UniqueParticipation(db) && UniqueAttendance(db) && OneToOne(db)
  }

  // ---- Foreign keys ----

  /** The Employee row's own references, and Department's manager. */
  ghost predicate EmployeeRefs(db: Db) {
    (forall k | k in db.employees :: db.employees[k].roleId in db.roles) &&
    (forall k | k in db.employees :: RefOk(db.employees[k].departmentId, db.departments.Keys)) &&
    (forall k | k in db.departments :: RefOk(db.departments[k].managerId, db.employees.Keys))
  }

  /** The rows that belong to an employee belong to an existing one. */
  ghost predicate OwnedRows(db: Db) {
    (forall k | k in db.points :: db.points[k].employeeId in db.employees) &&
    (forall k | k in db.accounts :: db.accounts[k].employeeId in db.employees) &&
    (forall k | k in db.transactions :: db.transactions[k].employeeId in db.employees) &&
    (forall k | k in db.participations :: db.participations[k].employeeId in db.employees) &&
    (forall k | k in db.attendances :: db.attendances[k].employeeId in db.employees) &&
    (forall k | k in db.requests :: db.requests[k].employeeId in db.employees) &&
    (forall k | k in db.conversions :: db.conversions[k].employeeId in db.employees)
  }

  /** The rows that merely name an employee (actor, creator, approver,
      updater) name an existing one or none. */
  ghost predicate NamedEmployees(db: Db) {
    (forall k | k in db.transactions :: RefOk(db.transactions[k].actorId, db.employees.Keys)) &&
    (forall k | k in db.activities :: RefOk(db.activities[k].createdBy, db.employees.Keys)) &&
    (forall k | k in db.approvals :: db.approvals[k].approverId in db.employees) &&
    (forall k | k in db.rules :: RefOk(db.rules[k].updatedBy, db.employees.Keys))
  }

  ghost predicate RefsToEmployees(db: Db) {
    OwnedRows(db) && NamedEmployees(db)
  }

  /** References between the satellite tables. */
  ghost predicate OtherRefs(db: Db) {
    (forall k | k in db.refreshTokens :: db.refreshTokens[k].userId in db.accounts) &&
    (forall k | k in db.resetTokens :: db.resetTokens[k].userId in db.accounts) &&
    (forall k | k in db.participations :: db.participations[k].activityId in db.activities) &&
    (forall k | k in db.approvals :: db.approvals[k].requestId in db.requests)
  }

  /** The state every committed database is in. */
  ghost predicate Valid(db: Db) {
    Keyed(db) && FreshIdentities(db) && UniqueIndexes(db) &&
    EmployeeRefs(db) && RefsToEmployees(db) && OtherRefs(db)
  }

  /** No row of any table refers to employee `id`. */
  ghost predicate Unreferenced(db: Db, id: Id) {
    (forall k | k in db.departments :: db.departments[k].managerId != Some(id)) &&
    (forall k | k in db.points :: db.points[k].employeeId != id) &&
    (forall k | k in db.accounts :: db.accounts[k].employeeId != id) &&
    (forall k | k in db.transactions :: db.transactions[k].employeeId != id) &&
    (forall k | k in db.transactions :: db.transactions[k].actorId != Some(id)) &&
    (forall k | k in db.activities :: db.activities[k].createdBy != Some(id)) &&
    (forall k | k in db.participations :: db.participations[k].employeeId != id) &&
    (forall k | k in db.attendances :: db.attendances[k].employeeId != id) &&
    (forall k | k in db.requests :: db.requests[k].employeeId != id) &&
    (forall k | k in db.approvals :: db.approvals[k].approverId != id) &&
    (forall k | k in db.rules :: db.rules[k].updatedBy != Some(id)) &&
    (forall k | k in db.conversions :: db.conversions[k].employeeId != id)
  }

  // ---- Inserts and updates ----

  predicate EmailInUse(db: Db, email: string, except: Id) {
    exists k | k in db.employees :: k != except && db.employees[k].email == email
  }

  predicate CccdInUse(db: Db, cccd: string, except: Id) {
    exists k | k in db.employees :: k != except && db.employees[k].cccd == cccd
  }

  /** The first constraint an Employee row `e` stored under key `key` would
      break, if any. */
  function EmployeeViolation(db: Db, e: Employee, key: Id): (r: Option<DbError>)
    ensures r.None? <==>
      !EmailInUse(db, e.email, key) && !CccdInUse(db, e.cccd, key) &&
      e.roleId in db.roles && RefOk(e.departmentId, db.departments.Keys)
  {
    if EmailInUse(db, e.email, key) then Some(UniqueViolation("IX_employee_email"))
    else if CccdInUse(db, e.cccd, key) then Some(UniqueViolation("IX_employee_cccd"))
    else if e.roleId !in db.roles then Some(ForeignKeyViolation("FK_employee_role"))
    else if !RefOk(e.departmentId, db.departments.Keys) then Some(ForeignKeyViolation("FK_employee_department"))
    else None
  }

  /** INSERT of an Employee: the identity column assigns the key, and the
      row is refused when it breaks a unique index or a foreign key. */
  function InsertEmployee(db: Db, e: Employee): (r: Result<(Db, Employee), DbError>)
    ensures r.Ok? <==> EmployeeViolation(db, e, db.nextEmployeeId).None?
    ensures r.Ok? ==>
      var (db', row) := r.value;
      row == e.(id := db.nextEmployeeId) &&
      db' == db.(employees := db.employees[row.id := row], nextEmployeeId := db.nextEmployeeId + 1)
  {
    var row := e.(id := db.nextEmployeeId);
    match EmployeeViolation(db, e, row.id)
    case Some(err) => Err(err)
    case None => Ok((db.(employees := db.employees[row.id := row], nextEmployeeId := db.nextEmployeeId + 1), row))
  }

  /** UPDATE of the Employee row with key `e.id`. */
  function UpdateEmployee(db: Db, e: Employee): (r: Result<Db, DbError>)
    ensures r.Ok? <==> e.id in db.employees && EmployeeViolation(db, e, e.id).None?
    ensures r.Ok? ==> r.value == db.(employees := db.employees[e.id := e])
  {
    if e.id !in db.employees then Err(RowNotFound)
    else match EmployeeViolation(db, e, e.id)
      case Some(err) => Err(err)
      case None => Ok(db.(employees := db.employees[e.id := e]))
  }

  predicate HasPoint(db: Db, employeeId: Id) {
    exists k | k in db.points :: db.points[k].employeeId == employeeId
  }

  /** INSERT of a Point: refused when its employee is missing or already
      has a Point (the one-to-one index). */
  function InsertPoint(db: Db, p: Point): (r: Result<(Db, Point), DbError>)
    ensures r.Ok? <==> p.employeeId in db.employees && !HasPoint(db, p.employeeId)
    ensures r.Ok? ==>
      var (db', row) := r.value;
      row == p.(id := db.nextPointId) &&
      db' == db.(points := db.points[row.id := row], nextPointId := db.nextPointId + 1)
  {
    var row := p.(id := db.nextPointId);
    if p.employeeId !in db.employees then Err(ForeignKeyViolation("FK_point_employee"))
    else if HasPoint(db, p.employeeId) then Err(UniqueViolation("IX_point_employee_id"))
    else Ok((db.(points := db.points[row.id := row], nextPointId := db.nextPointId + 1), row))
  }

  lemma InsertEmployeeKeepsValid(db: Db, e: Employee)
    requires Valid(db)
    ensures InsertEmployee(db, e).Ok? ==> Valid(InsertEmployee(db, e).value.0)
  {
    if InsertEmployee(db, e).Ok? {
      InsertEmployeeKeepsUnique(db, e);
      InsertEmployeeKeepsRefs(db, e);
    }
  }

  lemma InsertEmployeeKeepsUnique(db: Db, e: Employee)
    requires UniqueEmail(db) && UniqueCccd(db) && InsertEmployee(db, e).Ok?
    requires FreshIdentities(db)
    ensures UniqueEmail(InsertEmployee(db, e).value.0) && UniqueCccd(InsertEmployee(db, e).value.0)
  {
    var db' := InsertEmployee(db, e).value.0;
    var key := db.nextEmployeeId;
    forall a, b | a in db'.employees && b in db'.employees && a != b
      ensures db'.employees[a].email != db'.employees[b].email
      ensures db'.employees[a].cccd != db'.employees[b].cccd
    {
      if a == key || b == key {
        assert !EmailInUse(db, e.email, key) && !CccdInUse(db, e.cccd, key);
      }
    }
  }

  lemma InsertEmployeeKeepsRefs(db: Db, e: Employee)
    requires Keyed(db) && FreshIdentities(db) && EmployeeRefs(db) && RefsToEmployees(db)
    requires InsertEmployee(db, e).Ok?
    ensures var db' := InsertEmployee(db, e).value.0;
      Keyed(db') && FreshIdentities(db') && EmployeeRefs(db') && RefsToEmployees(db')
  {
    var db' := InsertEmployee(db, e).value.0;
    assert db'.employees.Keys == db.employees.Keys + {db.nextEmployeeId};
    InsertEmployeeKeepsOwners(db, e);
  }

  lemma InsertEmployeeKeepsOwners(db: Db, e: Employee)
    requires RefsToEmployees(db) && InsertEmployee(db, e).Ok?
    ensures RefsToEmployees(InsertEmployee(db, e).value.0)
  {
    var db' := InsertEmployee(db, e).value.0;
    assert db.employees.Keys <= db'.employees.Keys;
  }

  lemma UpdateEmployeeKeepsValid(db: Db, e: Employee)
    requires Valid(db)
    ensures UpdateEmployee(db, e).Ok? ==> Valid(UpdateEmployee(db, e).value)
  {
    if UpdateEmployee(db, e).Ok? {
      var db' := UpdateEmployee(db, e).value;
      assert db'.employees.Keys == db.employees.Keys;
      UpdateEmployeeKeepsUnique(db, e);
    }
  }

  lemma UpdateEmployeeKeepsUnique(db: Db, e: Employee)
    requires UniqueEmail(db) && UniqueCccd(db) && UpdateEmployee(db, e).Ok?
    ensures UniqueEmail(UpdateEmployee(db, e).value) && UniqueCccd(UpdateEmployee(db, e).value)
  {
    var db' := UpdateEmployee(db, e).value;
    forall a, b | a in db'.employees && b in db'.employees && a != b
      ensures db'.employees[a].email != db'.employees[b].email
      ensures db'.employees[a].cccd != db'.employees[b].cccd
    {
      if a == e.id || b == e.id {
        assert !EmailInUse(db, e.email, e.id) && !CccdInUse(db, e.cccd, e.id);
      }
    }
  }

  lemma InsertPointKeepsValid(db: Db, p: Point)
    requires Valid(db)
    ensures InsertPoint(db, p).Ok? ==> Valid(InsertPoint(db, p).value.0)
  {
    if InsertPoint(db, p).Ok? {
      var db' := InsertPoint(db, p).value.0;
      var key := db.nextPointId;
      assert OneToOne(db') by {
        forall a, b | a in db'.points && b in db'.points && a != b
          ensures db'.points[a].employeeId != db'.points[b].employeeId
        {
          if a == key || b == key {
            assert !HasPoint(db, p.employeeId);
          }
        }
      }
    }
  }

  // ---- Deletes ----

  /** `DeleteBehavior.Restrict` on Department.ManagerId. */
  predicate ManagesDepartment(db: Db, id: Id) {
    exists k | k in db.departments :: db.departments[k].managerId == Some(id)
  }

  /** `DeleteBehavior.Restrict` on ApprovalHistory.ApproverId. */
  predicate IsApprover(db: Db, id: Id) {
    exists k | k in db.approvals :: db.approvals[k].approverId == id
  }

  /** `DeleteBehavior.SetNull` on one nullable reference. */
  function Unset(r: Option<Id>, id: Id): (r': Option<Id>)
    ensures r' != Some(id)
    ensures r != Some(id) ==> r' == r
  {
    if r == Some(id) then None else r
  }

  // Cascade and set-null on each dependent table.

  function DropPoints(m: map<Id, Point>, id: Id): (r: map<Id, Point>)
    ensures forall k :: k in r <==> k in m && m[k].employeeId != id
    ensures forall k | k in r :: r[k] == m[k]
  {
    map k | k in m && m[k].employeeId != id :: m[k]
  }

  function DropAccounts(m: map<Id, UserAccount>, id: Id): (r: map<Id, UserAccount>)
    ensures forall k :: k in r <==> k in m && m[k].employeeId != id
    ensures forall k | k in r :: r[k] == m[k]
  {
    map k | k in m && m[k].employeeId != id :: m[k]
  }

  /** Tokens cascade with their user account. */
  function DropTokens(m: map<Id, UserToken>, accounts: map<Id, UserAccount>, id: Id): (r: map<Id, UserToken>)
    ensures forall k :: k in r <==> k in m && !(m[k].userId in accounts && accounts[m[k].userId].employeeId == id)
    ensures forall k | k in r :: r[k] == m[k]
  {
    map k | k in m && !(m[k].userId in accounts && accounts[m[k].userId].employeeId == id) :: m[k]
  }

  function DropTransactions(m: map<Id, PointTransaction>, id: Id): (r: map<Id, PointTransaction>)
    ensures forall k :: k in r <==> k in m && m[k].employeeId != id
    ensures forall k | k in r :: r[k] == m[k].(actorId := Unset(m[k].actorId, id))
  {
    map k | k in m && m[k].employeeId != id :: m[k].(actorId := Unset(m[k].actorId, id))
  }

  function UnsetCreator(m: map<Id, Activity>, id: Id): (r: map<Id, Activity>)
    ensures r.Keys == m.Keys
    ensures forall k | k in r :: r[k].createdBy == Unset(m[k].createdBy, id)
  {
    map k | k in m :: Activity(Unset(m[k].createdBy, id))
  }

  function DropParticipations(m: map<Id, Participation>, id: Id): (r: map<Id, Participation>)
    ensures forall k :: k in r <==> k in m && m[k].employeeId != id
    ensures forall k | k in r :: r[k] == m[k]
  {
    map k | k in m && m[k].employeeId != id :: m[k]
  }

  function DropAttendances(m: map<Id, Attendance>, id: Id): (r: map<Id, Attendance>)
    ensures forall k :: k in r <==> k in m && m[k].employeeId != id
    ensures forall k | k in r :: r[k] == m[k]
  {
    map k | k in m && m[k].employeeId != id :: m[k]
  }

  function DropRequests(m: map<Id, Request>, id: Id): (r: map<Id, Request>)
    ensures forall k :: k in r <==> k in m && m[k].employeeId != id
    ensures forall k | k in r :: r[k] == m[k]
  {
    map k | k in m && m[k].employeeId != id :: m[k]
  }

  /** Approval rows cascade with their request. */
  function DropApprovals(m: map<Id, Approval>, requests: map<Id, Request>, id: Id): (r: map<Id, Approval>)
    ensures forall k :: k in r <==> k in m && !(m[k].requestId in requests && requests[m[k].requestId].employeeId == id)
    ensures forall k | k in r :: r[k] == m[k]
  {
    map k | k in m && !(m[k].requestId in requests && requests[m[k].requestId].employeeId == id) :: m[k]
  }

  function UnsetUpdater(m: map<Id, ConversionRule>, id: Id): (r: map<Id, ConversionRule>)
    ensures r.Keys == m.Keys
    ensures forall k | k in r :: r[k].updatedBy == Unset(m[k].updatedBy, id)
  {
    map k | k in m :: ConversionRule(Unset(m[k].updatedBy, id))
  }

  function DropConversions(m: map<Id, PointToMoney>, id: Id): (r: map<Id, PointToMoney>)
    ensures forall k :: k in r <==> k in m && m[k].employeeId != id
    ensures forall k | k in r :: r[k] == m[k]
  {
    map k | k in m && m[k].employeeId != id :: m[k]
  }

  /** The tables after employee `id` is gone and its dependents with it. */
  function Cascade(db: Db, id: Id): Db {
    db.(
      employees := db.employees - {id},
      points := DropPoints(db.points, id),
      accounts := DropAccounts(db.accounts, id),
      refreshTokens := DropTokens(db.refreshTokens, db.accounts, id),
      resetTokens := DropTokens(db.resetTokens, db.accounts, id),
      transactions := DropTransactions(db.transactions, id),
      activities := UnsetCreator(db.activities, id),
      participations := DropParticipations(db.participations, id),
      attendances := DropAttendances(db.attendances, id),
      requests := DropRequests(db.requests, id),
      approvals := DropApprovals(db.approvals, db.requests, id),
      rules := UnsetUpdater(db.rules, id),
      conversions := DropConversions(db.conversions, id))
  }

  /** DELETE of employee `id` with the configured delete behaviours: refused
      while the employee manages a department or approved a request;
      otherwise the rows that belong to the employee go with it (cascade)
      and the references that merely name it become null (set null). */
  function DeleteEmployee(db: Db, id: Id): (r: Result<Db, DbError>)
    ensures r.Err? <==> id !in db.employees || ManagesDepartment(db, id) || IsApprover(db, id)
    ensures r.Ok? ==> r.value.employees == db.employees - {id} && Unreferenced(r.value, id)
  {
    if id !in db.employees then Err(RowNotFound)
    else if ManagesDepartment(db, id) then Err(ForeignKeyViolation("FK_department_manager"))
    else if IsApprover(db, id) then Err(ForeignKeyViolation("FK_approval_history_approver"))
    else Ok(Cascade(db, id))
  }

  /** A row survives the delete exactly when it does not belong to the
      deleted employee; roles, departments, activities and conversion
      rules all survive. */
  lemma DeleteEmployeeKeepsOthers(db: Db, id: Id)
    requires DeleteEmployee(db, id).Ok?
    ensures var db' := DeleteEmployee(db, id).value;
      db'.roles == db.roles && db'.departments == db.departments &&
      db'.activities.Keys == db.activities.Keys && db'.rules.Keys == db.rules.Keys &&
      (forall k | k in db.points :: k in db'.points <==> db.points[k].employeeId != id) &&
      (forall k | k in db.accounts :: k in db'.accounts <==> db.accounts[k].employeeId != id) &&
      (forall k | k in db.transactions :: k in db'.transactions <==> db.transactions[k].employeeId != id) &&
      (forall k | k in db.participations :: k in db'.participations <==> db.participations[k].employeeId != id) &&
      (forall k | k in db.attendances :: k in db'.attendances <==> db.attendances[k].employeeId != id) &&
      (forall k | k in db.requests :: k in db'.requests <==> db.requests[k].employeeId != id) &&
      (forall k | k in db.conversions :: k in db'.conversions <==> db.conversions[k].employeeId != id)
  {
  }

  lemma DeleteEmployeeKeepsValid(db: Db, id: Id)
    requires Valid(db)
    ensures DeleteEmployee(db, id).Ok? ==> Valid(DeleteEmployee(db, id).value)
  {
    if DeleteEmployee(db, id).Ok? {
      var db' := Cascade(db, id);
      CascadeKeepsKeys(db, id);
      CascadeKeepsUnique(db, id);
      CascadeKeepsEmployeeRefs(db, id);
      CascadeKeepsRefsToEmployees(db, id);
      CascadeKeepsOtherRefs(db, id);
    }
  }

  /** The cascade frees the deleted employee's email and CCCD: a new row may
      take them again. */
  lemma DeleteFreesUniqueValues(db: Db, id: Id)
    requires UniqueEmail(db) && UniqueCccd(db) && DeleteEmployee(db, id).Ok?
    ensures var db' := DeleteEmployee(db, id).value;
      !EmailInUse(db', db.employees[id].email, db'.nextEmployeeId) &&
      !CccdInUse(db', db.employees[id].cccd, db'.nextEmployeeId)
  {
    var db' := DeleteEmployee(db, id).value;
    forall k | k in db'.employees
      ensures db'.employees[k].email != db.employees[id].email
      ensures db'.employees[k].cccd != db.employees[id].cccd
    {
      assert k in db.employees && k != id && db'.employees[k] == db.employees[k];
    }
  }

  lemma CascadeKeepsKeys(db: Db, id: Id)
    requires Keyed(db) && FreshIdentities(db)
    ensures Keyed(Cascade(db, id)) && FreshIdentities(Cascade(db, id))
  {
  }

  lemma CascadeKeepsUnique(db: Db, id: Id)
    requires UniqueIndexes(db)
    ensures UniqueIndexes(Cascade(db, id))
  {
  }

  lemma CascadeKeepsEmployeeRefs(db: Db, id: Id)
    requires EmployeeRefs(db) && !ManagesDepartment(db, id)
    ensures EmployeeRefs(Cascade(db, id))
  {
    var db' := Cascade(db, id);
    forall k | k in db'.departments ensures RefOk(db'.departments[k].managerId, db'.employees.Keys) {
      assert db.departments[k].managerId != Some(id);
    }
  }

  lemma CascadeKeepsRefsToEmployees(db: Db, id: Id)
    requires RefsToEmployees(db) && !IsApprover(db, id)
    ensures RefsToEmployees(Cascade(db, id))
  {
    CascadeKeepsOwnedRows(db, id);
    CascadeKeepsNamedEmployees(db, id);
  }

  lemma CascadeKeepsOwnedRows(db: Db, id: Id)
    requires OwnedRows(db)
    ensures OwnedRows(Cascade(db, id))
  {
    DropsKeepOwners(db, id);
    DropsKeepMoreOwners(db, id);
  }

  /** The first four owned tables, after their cascade, have owners among
      the remaining employees. */
  lemma DropsKeepOwners(db: Db, id: Id)
    requires OwnedRows(db)
    ensures var keys := db.employees.Keys - {id};
      (forall k | k in DropPoints(db.points, id) :: DropPoints(db.points, id)[k].employeeId in keys) &&
      (forall k | k in DropAccounts(db.accounts, id) :: DropAccounts(db.accounts, id)[k].employeeId in keys) &&
      (forall k | k in DropTransactions(db.transactions, id) :: DropTransactions(db.transactions, id)[k].employeeId in keys)
  {
  }

  /** The other owned tables, likewise. */
  lemma DropsKeepMoreOwners(db: Db, id: Id)
    requires OwnedRows(db)
    ensures var keys := db.employees.Keys - {id};
      (forall k | k in DropParticipations(db.participations, id) :: DropParticipations(db.participations, id)[k].employeeId in keys) &&
      (forall k | k in DropAttendances(db.attendances, id) :: DropAttendances(db.attendances, id)[k].employeeId in keys) &&
      (forall k | k in DropRequests(db.requests, id) :: DropRequests(db.requests, id)[k].employeeId in keys) &&
      (forall k | k in DropConversions(db.conversions, id) :: DropConversions(db.conversions, id)[k].employeeId in keys)
  {
  }

  lemma CascadeKeepsNamedEmployees(db: Db, id: Id)
    requires NamedEmployees(db) && !IsApprover(db, id)
    ensures NamedEmployees(Cascade(db, id))
  {
    var db' := Cascade(db, id);
    assert db'.employees.Keys == db.employees.Keys - {id};
    forall k | k in db'.approvals ensures db'.approvals[k].approverId in db'.employees {
      assert db.approvals[k].approverId != id;
    }
    forall k | k in db'.transactions ensures RefOk(db'.transactions[k].actorId, db'.employees.Keys) {
      assert db'.transactions[k].actorId == Unset(db.transactions[k].actorId, id);
    }
    forall k | k in db'.activities ensures RefOk(db'.activities[k].createdBy, db'.employees.Keys) {
      assert db'.activities[k].createdBy == Unset(db.activities[k].createdBy, id);
    }
    forall k | k in db'.rules ensures RefOk(db'.rules[k].updatedBy, db'.employees.Keys) {
      assert db'.rules[k].updatedBy == Unset(db.rules[k].updatedBy, id);
    }
  }

  lemma CascadeKeepsOtherRefs(db: Db, id: Id)
    requires OtherRefs(db)
    ensures OtherRefs(Cascade(db, id))
  {
  }

  function ClearDepartment(m: map<Id, Employee>, d: Id): (r: map<Id, Employee>)
    ensures r.Keys == m.Keys
    ensures forall k | k in r :: r[k] == m[k].(departmentId := Unset(m[k].departmentId, d))
  {
    map k | k in m :: m[k].(departmentId := Unset(m[k].departmentId, d))
  }

  /** DELETE of a department: its employees' DepartmentId becomes null and
      nothing else changes. */
  function DeleteDepartment(db: Db, d: Id): (r: Db)
    ensures d !in r.departments && r.departments == db.departments - {d}
    ensures r.employees.Keys == db.employees.Keys
    ensures forall k | k in r.employees :: r.employees[k].departmentId != Some(d)
    ensures forall k | k in db.employees && db.employees[k].departmentId != Some(d) ::
      r.employees[k] == db.employees[k]
  {
    db.(departments := db.departments - {d}, employees := ClearDepartment(db.employees, d))
  }

  lemma DeleteDepartmentKeepsValid(db: Db, d: Id)
    requires Valid(db)
    ensures Valid(DeleteDepartment(db, d))
  {
    var db' := DeleteDepartment(db, d);
    DeleteDepartmentKeepsEmployeeRows(db, d);
    assert db'.employees.Keys == db.employees.Keys;
    assert db' == db.(departments := db'.departments, employees := db'.employees);
  }

  /** The employee rows after a department delete still satisfy their
      indexes and references. */
  lemma DeleteDepartmentKeepsEmployeeRows(db: Db, d: Id)
    requires UniqueEmail(db) && UniqueCccd(db) && Keyed(db) && EmployeeRefs(db)
    ensures var db' := DeleteDepartment(db, d);
      UniqueEmail(db') && UniqueCccd(db') && Keyed(db') && EmployeeRefs(db')
  {
    var db' := DeleteDepartment(db, d);
    forall k | k in db.employees
      ensures db'.employees[k].email == db.employees[k].email
      ensures db'.employees[k].cccd == db.employees[k].cccd
      ensures db'.employees[k].roleId == db.employees[k].roleId
      ensures db'.employees[k].id == db.employees[k].id
      ensures RefOk(db'.employees[k].departmentId, db'.departments.Keys)
    {
      assert db'.employees[k] == db.employees[k].(departmentId := Unset(db.employees[k].departmentId, d));
    }
  }

  /** Set-null on Employee.DepartmentId leaves no way back: once a
      department is deleted, no employee can be inserted into it. */
  lemma DeletedDepartmentRefusesInsert(db: Db, d: Id, e: Employee)
    requires e.departmentId == Some(d)
    ensures InsertEmployee(DeleteDepartment(db, d), e).Err?
  {
  }

  predicate RoleInUse(db: Db, roleId: Id) {
    exists k | k in db.employees :: db.employees[k].roleId == roleId
  }

  /** DELETE of a role: refused while an employee holds it. */
  function DeleteRole(db: Db, roleId: Id): (r: Result<Db, DbError>)
    ensures r.Err? <==> RoleInUse(db, roleId)
    ensures r.Ok? ==> roleId !in r.value.roles && r.value == db.(roles := db.roles - {roleId})
  {
    if RoleInUse(db, roleId) then Err(ForeignKeyViolation("FK_employee_role"))
    else Ok(db.(roles := db.roles - {roleId}))
  }

  lemma DeleteRoleKeepsValid(db: Db, roleId: Id)
    requires Valid(db)
    ensures DeleteRole(db, roleId).Ok? ==> Valid(DeleteRole(db, roleId).value)
  {
    if !RoleInUse(db, roleId) {
      UnusedRoleRemovable(db.employees, db.roles, roleId);
      var db' := db.(roles := db.roles - {roleId});
      assert Keyed(db') && EmployeeRefs(db');
    }
  }

  /** Restrict on Employee.RoleId, seen from the other side: once a role is
      deleted, no employee can be inserted with it. */
  lemma DeletedRoleRefusesInsert(db: Db, roleId: Id, e: Employee)
    requires DeleteRole(db, roleId).Ok? && e.roleId == roleId
    ensures InsertEmployee(DeleteRole(db, roleId).value, e).Err?
  {
  }

  lemma UnusedRoleRemovable(m: map<Id, Employee>, roles: map<Id, Role>, roleId: Id)
    requires forall k | k in m :: m[k].roleId in roles && m[k].roleId != roleId
    ensures forall k | k in m :: m[k].roleId in roles - {roleId}
  {
  }

  /** A database that holds only roles and employees. */
  function StaffOnly(roles: map<Id, Role>, employees: map<Id, Employee>, nextEmployeeId: Id): Db {
    Db(roles, map[], employees, map[], map[], map[], map[], map[],
      map[], map[], map[], map[], map[], map[], map[], nextEmployeeId, 1)
  }

  /** Such a database is valid when each employee is stored under its own
      key below the identity counter, has an existing role and no
      department, and no two share an email or a cccd. */
  lemma StaffOnlyValid(roles: map<Id, Role>, employees: map<Id, Employee>, nextEmployeeId: Id)
    requires forall k | k in roles :: roles[k].id == k
    requires forall k | k in employees :: employees[k].id == k && k < nextEmployeeId
    requires forall k | k in employees :: employees[k].roleId in roles && employees[k].departmentId.None?
    requires forall a, b | a in employees && b in employees && a != b ::
      employees[a].email != employees[b].email && employees[a].cccd != employees[b].cccd
    ensures Valid(StaffOnly(roles, employees, nextEmployeeId))
  {
  }

  /** Every table but the identity counters is the same. */
  ghost predicate SameTables(a: Db, b: Db) {
    a.(nextEmployeeId := 0, nextPointId := 0) == b.(nextEmployeeId := 0, nextPointId := 0)
  }

  /** The database connection of one request scope. Inserts and updates
      go through `SaveChanges`; `fault` stands for an I/O failure of the
      save, which leaves the tables as they were. */
  class HrmDbContext {
    var db: Db

    constructor(initial: Db)
      ensures db == initial
    {
      db := initial;
    }

    /** `Database.BeginTransactionAsync`: remembers the tables as they are. */
    method BeginTransaction() returns (snapshot: Db)
      ensures snapshot == db
    {
      snapshot := db;
    }

    /** `RollbackAsync`: every table returns to the snapshot; identity values
        handed out since then stay consumed (PostgreSQL sequences are not
        transactional). */
    method Rollback(snapshot: Db)
      modifies this
      ensures SameTables(db, snapshot)
      ensures db.nextEmployeeId == old(db.nextEmployeeId) && db.nextPointId == old(db.nextPointId)
    {
      db := snapshot.(nextEmployeeId := db.nextEmployeeId, nextPointId := db.nextPointId);
    }

    /** `Points.AddAsync` followed by `SaveChangesAsync`. */
    method AddPoint(p: Point, fault: Option<string>) returns (r: Result<Point, DbError>)
      modifies this
      ensures fault.Some? ==> r == Err(Failure(fault.value)) && db == old(db)
      ensures fault.None? && InsertPoint(old(db), p).Ok? ==>
        r == Ok(InsertPoint(old(db), p).value.1) && db == InsertPoint(old(db), p).value.0
      ensures fault.None? && InsertPoint(old(db), p).Err? ==>
        r == Err(InsertPoint(old(db), p).error) && db == old(db)
    {
      if fault.Some? {
        return Err(Failure(fault.value));
      }
      match InsertPoint(db, p)
      case Ok((db', row)) =>
        db := db';
        r := Ok(row);
      case Err(e) =>
        r := Err(e);
    }
  }

  /** Rolling back to a valid snapshot after identity values were consumed
      leaves a valid database. */
  lemma RollbackKeepsValid(snapshot: Db, current: Db)
    requires Valid(snapshot)
    requires current.nextEmployeeId >= snapshot.nextEmployeeId && current.nextPointId >= snapshot.nextPointId
    ensures Valid(snapshot.(nextEmployeeId := current.nextEmployeeId, nextPointId := current.nextPointId))
  {
  }
}
