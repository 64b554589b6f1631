/** The object maps between the Employee entity and its transfer objects:
    two read projections, the create map and the update map. */
module Mappings {
  import opened Wrappers
  import opened Store
  import opened Dtos

  /** `src.Role.Name`: the role row the key points at. A missing role gives
      null, since a `MapFrom` expression that dereferences null maps to null. */
  function RoleName(db: Db, e: Employee): (r: Option<string>)
    ensures r.Some? <==> e.roleId in db.roles
    ensures r.Some? ==> r.value == db.roles[e.roleId].name
  {
    if e.roleId in db.roles then Some(db.roles[e.roleId].name) else None
  }

  /** `src.Department != null ? src.Department.Name : null`. */
  function DepartmentName(db: Db, e: Employee): (r: Option<string>)
    ensures r.Some? <==> e.departmentId.Some? && e.departmentId.value in db.departments
    ensures r.Some? ==> r.value == db.departments[e.departmentId.value].name
  {
    if e.departmentId.Some? && e.departmentId.value in db.departments then
      Some(db.departments[e.departmentId.value].name)
    else None
  }

  /** Employee -> EmployeeListDto. */
  function ToListDto(db: Db, e: Employee): EmployeeListDto {
    EmployeeListDto(e.id, e.fullname, e.email, e.phone, e.status, e.joinDate,
      RoleName(db, e), DepartmentName(db, e))
  }

  /** Employee -> EmployeeDetailDto. */
  function ToDetailDto(db: Db, e: Employee): EmployeeDetailDto {
    EmployeeDetailDto(e.id, e.fullname, e.cccd, e.taxCode, e.phone, e.address, e.bankAccount,
      e.joinDate, e.status, e.birthday, e.gender, e.email, e.roleId, RoleName(db, e),
      e.departmentId, DepartmentName(db, e), e.createdAt, e.updatedAt)
  }

  /** The list view is the detail view with fields left out: every field
      they share holds the same value. */
  lemma ListViewAgreesWithDetailView(db: Db, e: Employee)
    ensures var l := ToListDto(db, e);
      var d := ToDetailDto(db, e);
      l.id == d.id && l.fullname == d.fullname && l.email == d.email && l.phone == d.phone &&
      l.status == d.status && l.joinDate == d.joinDate && l.roleName == d.roleName &&
      l.departmentName == d.departmentName
  {
  }

  /** On a database whose keys resolve, every view carries a role name, and a
      department name exactly when the employee has a department. */
  lemma ViewsResolveNames(db: Db, e: Employee)
    requires e.roleId in db.roles && RefOk(e.departmentId, db.departments.Keys)
    ensures ToDetailDto(db, e).roleName == Some(db.roles[e.roleId].name)
    ensures ToDetailDto(db, e).departmentName.Some? <==> e.departmentId.Some?
  {
  }

  /** CreateEmployeeDto -> Employee: the key is left to the database, the
      status starts "active" and both timestamps are the current time. */
  function MapCreate(dto: CreateEmployeeDto, now: Timestamp): (e: Employee)
    ensures e.id == 0 && e.status == Some("active")
    ensures e.createdAt == Some(now) && e.updatedAt == Some(now)
  {
    Employee(0, dto.fullname, dto.cccd, dto.taxCode, dto.phone, dto.address, dto.bankAccount,
      dto.joinDate, Some("active"), dto.birthday, dto.gender, dto.email, dto.roleId,
      dto.departmentId, Some(now), Some(now))
  }

  /** Every field the payload carries reaches the entity unchanged. */
  lemma MapCreateCopiesPayload(dto: CreateEmployeeDto, now: Timestamp)
    ensures var e := MapCreate(dto, now);
      e.fullname == dto.fullname && e.cccd == dto.cccd && e.taxCode == dto.taxCode &&
      e.phone == dto.phone && e.address == dto.address && e.bankAccount == dto.bankAccount &&
      e.joinDate == dto.joinDate && e.birthday == dto.birthday && e.gender == dto.gender &&
      e.email == dto.email && e.roleId == dto.roleId && e.departmentId == dto.departmentId
    ensures var e := MapCreate(dto, now);
      e.id == 0 && e.status == Some("active") && e.createdAt == Some(now) && e.updatedAt == Some(now)
  {
  }

  /** The null-skip rule of the update map: a null source member leaves the
      destination member as it was. */
  function Overwrite<T>(src: Option<T>, dest: Option<T>): (r: Option<T>)
    ensures src.None? ==> r == dest
    ensures src.Some? ==> r == src
  {
    if src.Some? then src else dest
  }

  /** UpdateEmployeeDto -> Employee, applied onto a loaded entity. The key,
      CCCD, tax code, email, role and join date are ignored; the other
      members are copied unless null; `CreatedAt` and `UpdatedAt` both
      become the current time. */
  function ApplyUpdate(dto: UpdateEmployeeDto, e: Employee, now: Timestamp): Employee {
    e.(fullname := dto.fullname,
       phone := Overwrite(dto.phone, e.phone),
       address := Overwrite(dto.address, e.address),
       bankAccount := Overwrite(dto.bankAccount, e.bankAccount),
       status := Overwrite(dto.status, e.status),
       birthday := Overwrite(dto.birthday, e.birthday),
       gender := Overwrite(dto.gender, e.gender),
       departmentId := Overwrite(dto.departmentId, e.departmentId),
       createdAt := Some(now),
       updatedAt := Some(now))
  }

  /** The identity of an employee survives any update. */
  lemma ApplyUpdateKeepsIdentity(dto: UpdateEmployeeDto, e: Employee, now: Timestamp)
    ensures var r := ApplyUpdate(dto, e, now);
      r.id == e.id && r.cccd == e.cccd && r.taxCode == e.taxCode && r.email == e.email &&
      r.roleId == e.roleId && r.joinDate == e.joinDate
  {
  }

  /** A null member keeps the stored value; a present one replaces it; the
      required name always replaces it. */
  lemma ApplyUpdateNullSkips(dto: UpdateEmployeeDto, e: Employee, now: Timestamp)
    ensures var r := ApplyUpdate(dto, e, now);
      r.fullname == dto.fullname &&
      (dto.phone.None? ==> r.phone == e.phone) && (dto.phone.Some? ==> r.phone == dto.phone) &&
      (dto.address.None? ==> r.address == e.address) && (dto.address.Some? ==> r.address == dto.address) &&
      (dto.bankAccount.None? ==> r.bankAccount == e.bankAccount) && (dto.bankAccount.Some? ==> r.bankAccount == dto.bankAccount) &&
      (dto.status.None? ==> r.status == e.status) && (dto.status.Some? ==> r.status == dto.status) &&
      (dto.birthday.None? ==> r.birthday == e.birthday) && (dto.birthday.Some? ==> r.birthday == dto.birthday) &&
      (dto.gender.None? ==> r.gender == e.gender) && (dto.gender.Some? ==> r.gender == dto.gender) &&
      (dto.departmentId.None? ==> r.departmentId == e.departmentId) && (dto.departmentId.Some? ==> r.departmentId == dto.departmentId)
  {
  }

  /** The update map stamps `CreatedAt` as well: the creation time of the
      row is replaced by the time of the update. */
  lemma ApplyUpdateResetsCreatedAt(dto: UpdateEmployeeDto, e: Employee, now: Timestamp)
    ensures ApplyUpdate(dto, e, now).createdAt == Some(now)
    ensures ApplyUpdate(dto, e, now).updatedAt == Some(now)
  {
  }

  /** Applying the same payload twice is applying it once, at the later time. */
  lemma ApplyUpdateIdempotent(dto: UpdateEmployeeDto, e: Employee, t1: Timestamp, t2: Timestamp)
    ensures ApplyUpdate(dto, ApplyUpdate(dto, e, t1), t2) == ApplyUpdate(dto, e, t2)
  {
  }

  /** A payload of only nulls changes nothing but the name and the two
      timestamps. */
  lemma EmptyUpdateChangesOnlyStamps(e: Employee, now: Timestamp)
    ensures ApplyUpdate(UpdateEmployeeDto(e.fullname, None, None, None, None, None, None, None), e, now) ==
      e.(createdAt := Some(now), updatedAt := Some(now))
  {
  }
}
