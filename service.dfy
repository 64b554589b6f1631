/** The employee service: business checks before a write, the create
    transaction (employee row plus its Point row), the update, the soft
    delete, the paged list and the statistics. */
module Service {
  import opened Wrappers
  import opened Text
  import opened Store
  import opened Repository
  import opened Dtos
  import opened Mappings
  import opened Messages

  /** `ex.Message` of the exception a failed save raises. The texts of the
      framework's own exceptions are abbreviated. */
  function ExceptionMessage(e: DbError): string {
    match e
    case Failure(m) => m
    case RowNotFound => "The database operation was expected to affect 1 row(s), but actually affected 0 row(s)."
    case _ => "An error occurred while saving the entity changes. See the inner exception for details."
  }

  // ---- Create ----

  /** A role of 0 stands for "not given" and becomes the default role. */
  function EffectiveRole(dto: CreateEmployeeDto): (r: Id)
    ensures dto.roleId == 0 ==> r == DefaultRoleId
    ensures dto.roleId != 0 ==> r == dto.roleId
  {
    if dto.roleId == 0 then DefaultRoleId else dto.roleId
  }

  /** The first business rule a create payload breaks, in the order the
      service checks them: the message and the single error line. */
  function CreateRejection(db: Db, dto: CreateEmployeeDto): (r: Option<(string, string)>)
    ensures r.None? <==>
      !EmailExists(db, dto.email, None) && !CccdExists(db, dto.cccd, None) &&
      (IsNullOrEmpty(dto.taxCode) || !TaxCodeExists(db, dto.taxCode.value, None)) &&
      EffectiveRole(dto) in db.roles && RefOk(dto.departmentId, db.departments.Keys)
    ensures EmailExists(db, dto.email, None) ==>
      r == Some(("Email đã tồn tại trong hệ thống", "Email này đã được sử dụng"))
    ensures (!EmailExists(db, dto.email, None) && CccdExists(db, dto.cccd, None)) ==>
      r == Some(("CCCD đã tồn tại trong hệ thống", "CCCD này đã được sử dụng"))
    ensures (!EmailExists(db, dto.email, None) && !CccdExists(db, dto.cccd, None) &&
      !IsNullOrEmpty(dto.taxCode) && TaxCodeExists(db, dto.taxCode.value, None)) ==>
      r == Some(("Mã số thuế đã tồn tại trong hệ thống", "Mã số thuế này đã được sử dụng"))
    ensures (!EmailExists(db, dto.email, None) && !CccdExists(db, dto.cccd, None) &&
      (IsNullOrEmpty(dto.taxCode) || !TaxCodeExists(db, dto.taxCode.value, None)) &&
      EffectiveRole(dto) !in db.roles) ==>
      r.Some? && r.value.0 == "Role không tồn tại"
    ensures (!EmailExists(db, dto.email, None) && !CccdExists(db, dto.cccd, None) &&
      (IsNullOrEmpty(dto.taxCode) || !TaxCodeExists(db, dto.taxCode.value, None)) &&
      EffectiveRole(dto) in db.roles && !RefOk(dto.departmentId, db.departments.Keys)) ==>
      r.Some? && r.value.0 == DepartmentNotFound
  {
    if EmailExists(db, dto.email, None) then
      Some(("Email đã tồn tại trong hệ thống", "Email này đã được sử dụng"))
    else if CccdExists(db, dto.cccd, None) then
      Some(("CCCD đã tồn tại trong hệ thống", "CCCD này đã được sử dụng"))
    else if !IsNullOrEmpty(dto.taxCode) && TaxCodeExists(db, dto.taxCode.value, None) then
      Some(("Mã số thuế đã tồn tại trong hệ thống", "Mã số thuế này đã được sử dụng"))
    else if EffectiveRole(dto) !in db.roles then
      Some(("Role không tồn tại", "Role với ID " + IntToString(EffectiveRole(dto)) + " không tồn tại trong hệ thống"))
    else if dto.departmentId.Some? && dto.departmentId.value !in db.departments then
      Some((DepartmentNotFound, "Phòng ban với ID " + IntToString(dto.departmentId.value) + " không tồn tại"))
    else None
  }

  /** The entity the service adds for a create payload. */
  function NewEmployee(dto: CreateEmployeeDto, now: Timestamp): (e: Employee)
    ensures e.roleId == EffectiveRole(dto) && e.status == Some("active")
    ensures e.email == dto.email && e.cccd == dto.cccd && e.departmentId == dto.departmentId
  {
    MapCreate(dto.(roleId := EffectiveRole(dto)), now)
      .(status := Some("active"), createdAt := Some(now), updatedAt := Some(now))
  }

  /** A payload that omits the role and the optional fields, or sends role
      0, is created with the default role 4, no department and status
      "active", and keeps the fields it did send. */
  lemma OmittedRoleGetsDefault(fullname: string, cccd: string, joinDate: Date, email: string, now: Timestamp)
    ensures var dto := MinimalCreateEmployeeDto(fullname, cccd, joinDate, email);
      var e := NewEmployee(dto, now);
      e.roleId == DefaultRoleId && e.departmentId.None? && e.status == Some("active") &&
      e.fullname == fullname && e.cccd == cccd && e.joinDate == joinDate && e.email == email &&
      NewEmployee(dto.(roleId := 0), now) == e
  {
  }

  /** The Point row created with every employee: zero points. */
  function InitialPoint(employeeId: Id, now: Timestamp): Point {
    Point(0, employeeId, Some(0), Some(now))
  }

  /** The tables after a committed create, with the new employee row; or the
      constraint that refused one of the two inserts. */
  function Created(db: Db, dto: CreateEmployeeDto, now: Timestamp): (r: Result<(Db, Employee), DbError>)
    ensures r.Ok? ==> r.value.1 == NewEmployee(dto, now).(id := db.nextEmployeeId)
    ensures r.Ok? ==> r.value.0.employees == db.employees[db.nextEmployeeId := r.value.1]
  {
    match InsertEmployee(db, NewEmployee(dto, now))
    case Err(e) => Err(e)
    case Ok((db1, row)) =>
      match InsertPoint(db1, InitialPoint(row.id, now))
      case Err(e) => Err(e)
      case Ok((db2, _)) => Ok((db2, row))
  }

  /** On a valid database, a payload that passes the business checks is
      stored: the database stays valid, holds the new employee under a fresh
      key, and gives it exactly one Point row, with zero points. */
  lemma CreateSucceeds(db: Db, dto: CreateEmployeeDto, now: Timestamp)
    requires Valid(db) && CreateRejection(db, dto).None?
    ensures Created(db, dto, now).Ok?
    ensures var (db', row) := Created(db, dto, now).value;
      Valid(db') && row.id !in db.employees &&
      db'.employees == db.employees[row.id := row] &&
      (exists k | k in db'.points :: db'.points[k].employeeId == row.id && db'.points[k].pointTotal == Some(0)) &&
      (forall a, b | a in db'.points && b in db'.points && db'.points[a].employeeId == row.id && db'.points[b].employeeId == row.id :: a == b)
  {
    var e := NewEmployee(dto, now);
    ProbesGuardInsert(db, e);
    assert InsertEmployee(db, e).Ok?;
    InsertEmployeeKeepsValid(db, e);
    var (db1, row) := InsertEmployee(db, e).value;
    assert !HasPoint(db1, row.id) by {
      forall k | k in db1.points ensures db1.points[k].employeeId != row.id {
        assert db.points[k].employeeId in db.employees;
      }
    }
    var p := InitialPoint(row.id, now);
    assert InsertPoint(db1, p).Ok?;
    InsertPointKeepsValid(db1, p);
    var db2 := InsertPoint(db1, p).value.0;
    assert db2.points[db1.nextPointId].employeeId == row.id;
  }

  /** A taken email is refused before anything else is checked. */
  lemma TakenEmailIsRefused(db: Db, dto: CreateEmployeeDto)
    requires exists k | k in db.employees :: db.employees[k].email == dto.email
    ensures CreateRejection(db, dto) == Some(("Email đã tồn tại trong hệ thống", "Email này đã được sử dụng"))
  {
    var k :| k in db.employees && db.employees[k].email == dto.email;
    assert None != Some(k);
  }

  // ---- Update ----

  /** Why an update is refused before any write, if it is. */
  function UpdateRejection(db: Db, id: Id, dto: UpdateEmployeeDto): (r: Option<(string, string)>)
    ensures r.None? <==> id in db.employees && RefOk(dto.departmentId, db.departments.Keys)
  {
    if id !in db.employees then
      Some((EmployeeNotFound, "Nhân viên với ID " + IntToString(id) + " không tồn tại"))
    else if dto.departmentId.Some? && dto.departmentId.value !in db.departments then
      Some((DepartmentNotFound, "Phòng ban với ID " + IntToString(dto.departmentId.value) + " không tồn tại"))
    else None
  }

  /** The row the service writes back for an update. */
  function Updated(db: Db, id: Id, dto: UpdateEmployeeDto, now: Timestamp): Employee
    requires id in db.employees
  {
    ApplyUpdate(dto, db.employees[id], now).(updatedAt := Some(now))
  }

  /** On a valid database an update that passes the checks is stored, keeps
      the database valid, touches only that row, and keeps the row's
      identity fields. */
  lemma UpdateSucceeds(db: Db, id: Id, dto: UpdateEmployeeDto, now: Timestamp)
    requires Valid(db) && UpdateRejection(db, id, dto).None?
    ensures UpdateEmployee(db, Updated(db, id, dto, now)).Ok?
    ensures var db' := UpdateEmployee(db, Updated(db, id, dto, now)).value;
      Valid(db') && db'.employees.Keys == db.employees.Keys &&
      db'.employees[id].email == db.employees[id].email &&
      db'.employees[id].cccd == db.employees[id].cccd &&
      db'.employees[id].roleId == db.employees[id].roleId &&
      (forall k | k in db.employees && k != id :: db'.employees[k] == db.employees[k])
  {
    var e := Updated(db, id, dto, now);
    assert e.id == id;
    assert !EmailInUse(db, e.email, id) && !CccdInUse(db, e.cccd, id);
    UpdateEmployeeKeepsValid(db, e);
  }

  /** An update that passes the payload's status rule leaves the stored
      status one of the three names, the empty string, or what it was. */
  lemma UpdateKeepsStatusDomain(db: Db, id: Id, dto: UpdateEmployeeDto, now: Timestamp)
    requires id in db.employees && ValidUpdateStatus(dto.status)
    ensures var s := Updated(db, id, dto, now).status;
      s == db.employees[id].status || s.value in {"", "active", "inactive", "suspended"}
  {
  }

  // ---- Soft delete ----

  /** The row the soft delete writes back: marked inactive. */
  function Deactivated(db: Db, id: Id, now: Timestamp): Employee
    requires id in db.employees
  {
    db.employees[id].(status := Some("inactive"), updatedAt := Some(now))
  }

  /** On a valid database the soft delete is stored, keeps the database
      valid, keeps every row (of every table), and leaves the employee out of
      the active ones. */
  lemma SoftDeleteSucceeds(db: Db, id: Id, now: Timestamp)
    requires Valid(db) && id in db.employees
    ensures UpdateEmployee(db, Deactivated(db, id, now)).Ok?
    ensures var db' := UpdateEmployee(db, Deactivated(db, id, now)).value;
      Valid(db') && db'.employees.Keys == db.employees.Keys &&
      db' == db.(employees := db'.employees) &&
      id !in ActiveIds(db') && ActiveIds(db') == ActiveIds(db) - {id}
  {
    var e := Deactivated(db, id, now);
    assert !EmailInUse(db, e.email, id) && !CccdInUse(db, e.cccd, id);
    UpdateEmployeeKeepsValid(db, e);
    DeactivatedNotActive(db, id, now);
  }

  lemma DeactivatedNotActive(db: Db, id: Id, now: Timestamp)
    requires id in db.employees
    ensures var db' := db.(employees := db.employees[id := Deactivated(db, id, now)]);
      id !in ActiveIds(db') && ActiveIds(db') == ActiveIds(db) - {id}
  {
  }

  // ---- Reads ----

  /** `GetEmployeesAsync`: the page of list views and the paging envelope. */
  function GetEmployees(db: Db, pageNumber: int, pageSize: int, q: EmployeeQuery): (r: PagedResult<EmployeeListDto>)
    requires pageNumber >= 1 && pageSize >= 0
    ensures r.totalCount == |MatchingIds(db, q)| && r.pageNumber == pageNumber && r.pageSize == pageSize
    ensures |r.items| <= pageSize
    ensures var rows := GetPaged(db, pageNumber, pageSize, q).0;
      |r.items| == |rows| && forall i | 0 <= i < |r.items| :: r.items[i] == ToListDto(db, rows[i])
  {
    var (rows, total) := GetPaged(db, pageNumber, pageSize, q);
    PagedResult(seq(|rows|, i requires 0 <= i < |rows| => ToListDto(db, rows[i])), total, pageNumber, pageSize)
  }

  /** Every listed employee passes the filters; the envelope says whether
      more pages follow. */
  lemma ListedEmployeesMatch(db: Db, pageNumber: int, pageSize: int, q: EmployeeQuery)
    requires Keyed(db) && pageNumber >= 1 && pageSize >= 1
    ensures var r := GetEmployees(db, pageNumber, pageSize, q);
      (forall i | 0 <= i < |r.items| :: r.items[i].id in db.employees && Matches(db.employees[r.items[i].id], q)) &&
      (r.HasNextPage() <==> pageNumber * pageSize < |MatchingIds(db, q)|)
  {
    PageRowsMatchInOrder(db, pageNumber, pageSize, q);
    var rows := GetPaged(db, pageNumber, pageSize, q).0;
    forall i | 0 <= i < |rows| ensures db.employees[rows[i].id] == rows[i] {
    }
    HasNextPageIffMoreRows(GetEmployees(db, pageNumber, pageSize, q));
  }

  /** `GetEmployeeByIdAsync`. */
  function GetEmployeeById(db: Db, id: Id): (r: Option<EmployeeDetailDto>)
    ensures r.Some? <==> id in db.employees
    ensures r.Some? ==> r.value.id == db.employees[id].id && r.value.email == db.employees[id].email
  {
    match FindEmployee(db, id)
    case None => None
    case Some(e) => Some(ToDetailDto(db, e))
  }

  datatype Statistics = Statistics(
    totalEmployees: int,
    activeEmployees: int,
    inactiveEmployees: int,
    byStatus: map<string, nat>,
    byDepartment: map<string, nat>)

  /** `GetStatisticsAsync`: "inactive" is every employee that is not active,
      whatever its status. */
  function GetStatistics(db: Db): (s: Statistics)
    ensures s.totalEmployees == |db.employees|
    ensures s.activeEmployees + s.inactiveEmployees == s.totalEmployees
    ensures s.inactiveEmployees == |db.employees.Keys - ActiveIds(db)|
  {
    var total := TotalCount(db);
    var active := ActiveCount(db);
    assert db.employees.Keys * ActiveIds(db) == ActiveIds(db);
    Statistics(total, active, total - active, CountByStatus(db), CountByDepartment(db))
  }

  /** The status breakdown adds up to the total, and its "active" entry
      (when there is one) is the active count. */
  lemma StatisticsAgree(db: Db)
    ensures var s := GetStatistics(db);
      Sum(s.byStatus) == s.totalEmployees && Sum(s.byDepartment) == s.totalEmployees &&
      s.inactiveEmployees >= 0 &&
      ("active" in s.byStatus ==> s.byStatus["active"] == s.activeEmployees)
  {
    CountByStatusSumsToTotal(db);
    CountByDepartmentSumsToTotal(db);
    CountByStatusAgreesWithActive(db);
    ActiveAtMostTotal(db);
  }

  // ---- The service object ----

  /** The service over one request scope: its repository and the context
      both work on the same database. Clock readings and save failures are
      parameters. */
  class EmployeeService {
    const repository: EmployeeRepository
    const context: HrmDbContext

    constructor(repository: EmployeeRepository, context: HrmDbContext)
      requires repository.context == context
      ensures this.repository == repository && this.context == context && Wired()
    {
      this.repository := repository;
      this.context := context;
    }

    predicate Wired() {
      repository.context == context
    }

    /** `CreateEmployeeAsync`: the checks, then the employee and its Point
        row in one transaction; a failure of either save rolls both back. */
    method CreateEmployeeAsync(dto: CreateEmployeeDto, now: Timestamp,
                               employeeFault: Option<string>, pointFault: Option<string>)
      returns (r: ApiResponse<EmployeeDetailDto>)
      requires Wired()
      modifies context
      ensures CreateRejection(old(context.db), dto).Some? ==>
        var (message, error) := CreateRejection(old(context.db), dto).value;
        r == ErrorResponse(message, Some([error])) && context.db == old(context.db)
      ensures (CreateRejection(old(context.db), dto).None? && employeeFault.None? && pointFault.None? &&
               Created(old(context.db), dto, now).Ok?) ==>
        var (db', row) := Created(old(context.db), dto, now).value;
        context.db == db' && r == SuccessResponse(ToDetailDto(db', row), "Tạo nhân viên thành công")
      ensures (CreateRejection(old(context.db), dto).None? &&
               (employeeFault.Some? || pointFault.Some? || Created(old(context.db), dto, now).Err?)) ==>
        !r.success && r.message == "Lỗi khi tạo nhân viên" && r.errors.Some? && |r.errors.value| == 1 &&
        SameTables(context.db, old(context.db)) &&
        context.db.nextEmployeeId >= old(context.db.nextEmployeeId) &&
        context.db.nextPointId >= old(context.db.nextPointId)
    {
      var rejection := CreateRejection(context.db, dto);
      if rejection.Some? {
        return ErrorResponse(rejection.value.0, Some([rejection.value.1]));
      }
      var employee := NewEmployee(dto, now);
      var snapshot := context.BeginTransaction();
      var added := repository.AddAsync(employee, employeeFault);
      if added.Err? {
        context.Rollback(snapshot);
        return ErrorResponse("Lỗi khi tạo nhân viên", Some([ExceptionMessage(added.error)]));
      }
      var saved := context.AddPoint(InitialPoint(added.value.id, now), pointFault);
      if saved.Err? {
        context.Rollback(snapshot);
        return ErrorResponse("Lỗi khi tạo nhân viên", Some([ExceptionMessage(saved.error)]));
      }
      // Committed; the response carries the row as read back.
      var stored := context.db.employees[added.value.id];
      r := SuccessResponse(ToDetailDto(context.db, stored), "Tạo nhân viên thành công");
    }

    /** `UpdateEmployeeAsync`: the checks, the update map onto the loaded
        row, one save. */
    method UpdateEmployeeAsync(id: Id, dto: UpdateEmployeeDto, now: Timestamp, fault: Option<string>)
      returns (r: ApiResponse<EmployeeDetailDto>)
      requires Wired()
      modifies context
      ensures UpdateRejection(old(context.db), id, dto).Some? ==>
        var (message, error) := UpdateRejection(old(context.db), id, dto).value;
        r == ErrorResponse(message, Some([error])) && context.db == old(context.db)
      ensures (UpdateRejection(old(context.db), id, dto).None? && fault.None? &&
               UpdateEmployee(old(context.db), Updated(old(context.db), id, dto, now)).Ok?) ==>
        var db' := UpdateEmployee(old(context.db), Updated(old(context.db), id, dto, now)).value;
        context.db == db' &&
        r == SuccessResponse(ToDetailDto(db', Updated(old(context.db), id, dto, now)), "Cập nhật nhân viên thành công")
      ensures (UpdateRejection(old(context.db), id, dto).None? &&
               (fault.Some? || UpdateEmployee(old(context.db), Updated(old(context.db), id, dto, now)).Err?)) ==>
        !r.success && r.message == UpdateFailed && context.db == old(context.db)
    {
      var rejection := UpdateRejection(context.db, id, dto);
      if rejection.Some? {
        return ErrorResponse(rejection.value.0, Some([rejection.value.1]));
      }
      var employee := Updated(context.db, id, dto, now);
      var saved := repository.UpdateAsync(employee, fault);
      if saved.Err? {
        return ErrorResponse(UpdateFailed, Some([ExceptionMessage(saved.error)]));
      }
      var stored := context.db.employees[id];
      r := SuccessResponse(ToDetailDto(context.db, stored), "Cập nhật nhân viên thành công");
    }

    /** `DeleteEmployeeAsync`: a soft delete that marks the row inactive. */
    method DeleteEmployeeAsync(id: Id, now: Timestamp, fault: Option<string>) returns (r: ApiResponse<bool>)
      requires Wired()
      modifies context
      ensures id !in old(context.db.employees) ==>
        r == ErrorResponse(EmployeeNotFound, Some(["Nhân viên với ID " + IntToString(id) + " không tồn tại"])) &&
        context.db == old(context.db)
      ensures (id in old(context.db.employees) && fault.None? &&
               UpdateEmployee(old(context.db), Deactivated(old(context.db), id, now)).Ok?) ==>
        r == SuccessResponse(true, "Xóa nhân viên thành công") &&
        context.db == UpdateEmployee(old(context.db), Deactivated(old(context.db), id, now)).value
      ensures (id in old(context.db.employees) &&
               (fault.Some? || UpdateEmployee(old(context.db), Deactivated(old(context.db), id, now)).Err?)) ==>
        !r.success && r.message == "Lỗi khi xóa nhân viên" && context.db == old(context.db)
    {
      if FindEmployee(context.db, id).None? {
        return ErrorResponse(EmployeeNotFound, Some(["Nhân viên với ID " + IntToString(id) + " không tồn tại"]));
      }
      var employee := Deactivated(context.db, id, now);
      var saved := repository.UpdateAsync(employee, fault);
      if saved.Err? {
        return ErrorResponse("Lỗi khi xóa nhân viên", Some([ExceptionMessage(saved.error)]));
      }
      r := SuccessResponse(true, "Xóa nhân viên thành công");
    }
  }
}
