/** The HTTP surface of the employee API: the paging clamp and the choice
    of status code for each service result. */
module Controller {
  import opened Wrappers
  import opened Text
  import opened Store
  import opened Repository
  import opened Dtos
  import opened Mappings
  import opened Service
  import opened Messages

  /** What a response carries: the API envelope, a page, or the validation
      problem the API-controller filter answers with. */
  datatype Body<T> =
    | Envelope(response: ApiResponse<T>)
    | Page(page: PagedResult<EmployeeListDto>)
    | ValidationProblem(errors: seq<string>)

  /** A status code, a body and, for 201, the key of the created row. */
  datatype ActionResult<T> = ActionResult(status: int, body: Body<T>, location: Option<Id>)

  const DefaultPageSize: int := 10
  const MaxPageSize: int := 100

  /** Page numbers below 1 become 1; page sizes outside 1..100 become 10. */
  function ClampPaging(pageNumber: int, pageSize: int): (r: (int, int))
    ensures r.0 >= 1 && 1 <= r.1 <= MaxPageSize
    ensures pageNumber >= 1 ==> r.0 == pageNumber
    ensures pageNumber < 1 ==> r.0 == 1
    ensures 1 <= pageSize <= MaxPageSize ==> r.1 == pageSize
    ensures !(1 <= pageSize <= MaxPageSize) ==> r.1 == DefaultPageSize
  {
    (if pageNumber < 1 then 1 else pageNumber,
     if pageSize < 1 || pageSize > MaxPageSize then DefaultPageSize else pageSize)
  }

  /** Clamping is idempotent: clamped values pass unchanged. */
  lemma ClampPagingIdempotent(pageNumber: int, pageSize: int)
    ensures var (p, s) := ClampPaging(pageNumber, pageSize); ClampPaging(p, s) == (p, s)
  {
  }

  /** `GET api/employee`: always a page, of at most 100 rows, the service's
      page for the clamped number and size. */
  function GetEmployees(db: Db, pageNumber: int, pageSize: int, q: EmployeeQuery): (r: ActionResult<()>)
    ensures r.status == 200 && r.body.Page? && r.location.None?
    ensures r.body.page.pageNumber >= 1 && 1 <= r.body.page.pageSize <= MaxPageSize
    ensures |r.body.page.items| <= MaxPageSize && r.body.page.totalCount == |MatchingIds(db, q)|
    ensures var (p, s) := ClampPaging(pageNumber, pageSize);
      r.body.page == Service.GetEmployees(db, p, s, q)
  {
    var (p, s) := ClampPaging(pageNumber, pageSize);
    ActionResult(200, Page(Service.GetEmployees(db, p, s, q)), None)
  }

  /** `GET api/employee` with the offset computed as written: the failed
      query is answered with 500. */
  function GetEmployeesAsWritten(db: Db, pageNumber: int, pageSize: int, q: EmployeeQuery): (r: ActionResult<()>)
    requires IsInt32(pageNumber) && IsInt32(pageSize)
    ensures var (p, s) := ClampPaging(pageNumber, pageSize);
      r.status == 500 <==> OffsetAsWritten(p, s) < 0
  {
    var (p, s) := ClampPaging(pageNumber, pageSize);
    match GetPagedAsWritten(db, p, s, q)
    case Err(e) =>
      ActionResult(500, Envelope(ErrorResponse("Lỗi khi lấy danh sách nhân viên", Some([ExceptionMessage(e)]))), None)
    case Ok((rows, total)) =>
      var items := seq(|rows|, i requires 0 <= i < |rows| => ToListDto(db, rows[i]));
      ActionResult(200, Page(PagedResult(items, total, p, s)), None)
  }

  /** A page number the clamp lets through fails as written; with the
      offset computed exactly it is an empty page. */
  lemma LargePageNumber(db: Db, q: EmployeeQuery)
    requires |MatchingIds(db, q)| <= 2147483700
    ensures GetEmployeesAsWritten(db, 21474838, 100, q).status == 500
    ensures var r := GetEmployees(db, 21474838, 100, q); r.status == 200 && r.body.page.items == []
  {
    OffsetOverflows();
    PageBeyondEndIsEmpty(db, 21474838, 100, q);
  }

  /** `GET api/employee/{id}`: 200 with the detail view, or 404. */
  function GetEmployee(db: Db, id: Id): (r: ActionResult<EmployeeDetailDto>)
    ensures r.status == 200 <==> id in db.employees
    ensures r.status == 404 <==> id !in db.employees
    ensures r.body.Envelope? && (r.status == 200 <==> r.body.response.success)
  {
    match GetEmployeeById(db, id)
    case None =>
      ActionResult(404, Envelope(ErrorResponse(EmployeeNotFound, Some(["Nhân viên với ID " + IntToString(id) + " không tồn tại"]))), None)
    case Some(d) =>
      ActionResult(200, Envelope(SuccessResponse(d, "Lấy thông tin nhân viên thành công")), None)
  }

  /** A request whose payload breaks a data-annotation rule: the
      API-controller filter answers 400 before the action runs, so the
      action's own check of the model state never fires. */
  function InvalidModel<T>(errors: seq<string>): (r: ActionResult<T>)
    ensures r.status == 400 && r.body == ValidationProblem(errors)
  {
    ActionResult(400, ValidationProblem(errors), None)
  }

  /** `POST api/employee` on the service result: 201 with the location of the
      new row, or 400 with the service's envelope. */
  function CreateResult(result: ApiResponse<EmployeeDetailDto>): (r: ActionResult<EmployeeDetailDto>)
    ensures result.success && result.data.Some? ==>
      r.status == 201 && r.location == Some(result.data.value.id) && r.body == Envelope(result)
    ensures !result.success ==> r.status == 400 && r.body == Envelope(result)
    ensures result.success && result.data.None? ==> r.status == 500
  {
    if !result.success then ActionResult(400, Envelope(result), None)
    else if result.data.None? then
      // `result.Data!.Id` dereferences null.
      ActionResult(500, Envelope(ErrorResponse("Lỗi khi tạo nhân viên", Some(["Object reference not set to an instance of an object."]))), None)
    else ActionResult(201, Envelope(result), Some(result.data.value.id))
  }

  /** `PUT api/employee/{id}` on the service result: 200, 404 when the
      message says something was not found, 400 otherwise. */
  function UpdateResult(result: ApiResponse<EmployeeDetailDto>): (r: ActionResult<EmployeeDetailDto>)
    ensures r.body == Envelope(result)
    ensures r.status == 200 <==> result.success
    ensures r.status == 404 <==> !result.success && Contains(result.message, NotFoundMarker)
    ensures r.status == 400 <==> !result.success && !Contains(result.message, NotFoundMarker)
  {
    if result.success then ActionResult(200, Envelope(result), None)
    else if Contains(result.message, NotFoundMarker) then ActionResult(404, Envelope(result), None)
    else ActionResult(400, Envelope(result), None)
  }

  /** The three ways the service refuses an update map to 404 for a missing
      employee and 400 for a missing department or a failed save. */
  lemma UpdateRefusalCodes(errors: Option<seq<string>>)
    ensures UpdateResult(ErrorResponse(EmployeeNotFound, errors)).status == 404
    ensures UpdateResult(ErrorResponse(DepartmentNotFound, errors)).status == 400
    ensures UpdateResult(ErrorResponse(UpdateFailed, errors)).status == 400
  {
    RefusalMessages();
  }

  /** An update the service refuses before writing is answered 404 when the
      employee is missing and 400 when the department is. */
  lemma UpdateRejectionStatus(db: Db, id: Id, dto: UpdateEmployeeDto)
    requires UpdateRejection(db, id, dto).Some?
    ensures var (message, error) := UpdateRejection(db, id, dto).value;
      UpdateResult(ErrorResponse(message, Some([error]))).status == (if id in db.employees then 400 else 404)
  {
    var (message, error) := UpdateRejection(db, id, dto).value;
    RefusalStatus(message, Some([error]));
  }

  /** The status of a refusal depends only on which message it carries. */
  lemma RefusalStatus(message: string, errors: Option<seq<string>>)
    requires message == EmployeeNotFound || message == DepartmentNotFound
    ensures UpdateResult(ErrorResponse(message, errors)).status == (if message == EmployeeNotFound then 404 else 400)
  {
    RefusalMessages();
  }

  /** The create endpoint on what the service answers: a refused payload is
      400 with the refusal's message, whatever the message says, and a stored
      one is 201 pointing at the key the database assigned. */
  lemma CreateAnswers(db: Db, dto: CreateEmployeeDto, now: Timestamp)
    ensures CreateRejection(db, dto).Some? ==>
      var (message, error) := CreateRejection(db, dto).value;
      var r := CreateResult(ErrorResponse(message, Some([error])));
      r.status == 400 && r.location.None? && r.body.response.message == message
    ensures Created(db, dto, now).Ok? ==>
      var (db', row) := Created(db, dto, now).value;
      var r := CreateResult(SuccessResponse(ToDetailDto(db', row), "Tạo nhân viên thành công"));
      r.status == 201 && r.location == Some(db.nextEmployeeId) &&
      r.body.response.data == Some(ToDetailDto(db', row)) && db.nextEmployeeId in db'.employees
  {
  }

  /** Both 400s of the create endpoint can be told apart: a payload the
      filter rejects carries a validation problem, a payload the service
      refuses carries the service's envelope. */
  lemma BadRequestsDiffer(errors: seq<string>, db: Db, dto: CreateEmployeeDto)
    requires CreateRejection(db, dto).Some?
    ensures var (message, error) := CreateRejection(db, dto).value;
      var refused := CreateResult(ErrorResponse(message, Some([error])));
      InvalidModel<EmployeeDetailDto>(errors).status == refused.status == 400 &&
      InvalidModel<EmployeeDetailDto>(errors).body == ValidationProblem(errors) && refused.body.Envelope?
  {
  }

  /** `DELETE api/employee/{id}` on the service result: 200, or 404 for any
      failure, a failed save included. */
  function DeleteResult(result: ApiResponse<bool>): (r: ActionResult<bool>)
    ensures r.body == Envelope(result)
    ensures r.status == (if result.success then 200 else 404)
  {
    ActionResult(if result.success then 200 else 404, Envelope(result), None)
  }

  /** A failed save is answered 404 by the delete endpoint but 400 by the
      update endpoint; a delete that goes through is 200. */
  lemma SaveFailureStatus(errors: Option<seq<string>>)
    ensures DeleteResult(ErrorResponse("Lỗi khi xóa nhân viên", errors)).status == 404
    ensures UpdateResult(ErrorResponse(UpdateFailed, errors)).status == 400
    ensures DeleteResult(SuccessResponse(true, "Xóa nhân viên thành công")).status == 200
  {
    RefusalMessages();
  }

  /** `GET api/employee/check-email`: whether any employee has the email. */
  function CheckEmail(db: Db, email: string): (r: ActionResult<bool>)
    ensures r.status == 200 && r.body.Envelope? && r.body.response.success
    ensures r.body.response.data == Some(exists k | k in db.employees :: db.employees[k].email == email)
  {
    var exists_ := EmailExists(db, email, None);
    ActionResult(200, Envelope(SuccessResponse(exists_, if exists_ then "Email đã tồn tại" else "Email có thể sử dụng")), None)
  }

  /** The email check and the create checks agree: an email reported as
      taken is exactly one a create refuses first. */
  lemma CheckEmailAgreesWithCreate(db: Db, dto: CreateEmployeeDto)
    ensures CheckEmail(db, dto.email).body.response.data == Some(true) <==>
      CreateRejection(db, dto) == Some(("Email đã tồn tại trong hệ thống", "Email này đã được sử dụng"))
  {
    if EmailExists(db, dto.email, None) {
      var k :| k in db.employees && db.employees[k].email == dto.email && None != Some(k);
    }
  }

  /** `GET api/employee/check-cccd`: whether any employee has the CCCD. */
  function CheckCccd(db: Db, cccd: string): (r: ActionResult<bool>)
    ensures r.status == 200 && r.body.Envelope? && r.body.response.success
    ensures r.body.response.data == Some(exists k | k in db.employees :: db.employees[k].cccd == cccd)
  {
    var exists_ := CccdExists(db, cccd, None);
    ActionResult(200, Envelope(SuccessResponse(exists_, if exists_ then "CCCD đã tồn tại" else "CCCD có thể sử dụng")), None)
  }

  /** The CCCD check and the create checks agree: a CCCD reported as taken,
      with the email free, is exactly one a create refuses as a CCCD. */
  lemma CheckCccdAgreesWithCreate(db: Db, dto: CreateEmployeeDto)
    ensures (CheckEmail(db, dto.email).body.response.data == Some(false) &&
      CheckCccd(db, dto.cccd).body.response.data == Some(true)) <==>
      CreateRejection(db, dto) == Some(("CCCD đã tồn tại trong hệ thống", "CCCD này đã được sử dụng"))
  {
    if EmailExists(db, dto.email, None) {
      var k :| k in db.employees && db.employees[k].email == dto.email && None != Some(k);
    }
    if CccdExists(db, dto.cccd, None) {
      var k :| k in db.employees && db.employees[k].cccd == dto.cccd && None != Some(k);
    }
  }

  /** `GET api/employee/statistics`. */
  function GetStatisticsResult(db: Db): (r: ActionResult<Statistics>)
    ensures r.status == 200 && r.body.Envelope? && r.body.response.success
    ensures r.body.response.data == Some(GetStatistics(db))
    ensures r.body.response.data.Some? && r.body.response.data.value.totalEmployees == |db.employees|
  {
    ActionResult(200, Envelope(SuccessResponse(GetStatistics(db), "Lấy thống kê thành công")), None)
  }
}
