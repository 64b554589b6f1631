/** The transfer objects of the employee API: the list and detail views,
    the create and update payloads with their format rules, the
    `ApiResponse` envelope and the `PagedResult` envelope. */
module Dtos {
  import opened Wrappers
  import opened Text
  import opened Store

  datatype EmployeeListDto = EmployeeListDto(
    id: Id,
    fullname: string,
    email: string,
    phone: Option<string>,
    status: Option<string>,
    joinDate: Date,
    roleName: Option<string>,
    departmentName: Option<string>)

  datatype EmployeeDetailDto = EmployeeDetailDto(
    id: Id,
    fullname: string,
    cccd: string,
    taxCode: Option<string>,
    phone: Option<string>,
    address: Option<string>,
    bankAccount: Option<string>,
    joinDate: Date,
    status: Option<string>,
    birthday: Option<Date>,
    gender: Option<string>,
    email: string,
    roleId: Id,
    roleName: Option<string>,
    departmentId: Option<Id>,
    departmentName: Option<string>,
    createdAt: Option<Timestamp>,
    updatedAt: Option<Timestamp>)

  datatype CreateEmployeeDto = CreateEmployeeDto(
    fullname: string,
    cccd: string,
    taxCode: Option<string>,
    phone: Option<string>,
    address: Option<string>,
    bankAccount: Option<string>,
    joinDate: Date,
    birthday: Option<Date>,
    gender: Option<string>,
    email: string,
    roleId: Id,
    departmentId: Option<Id>)

  /** The role a new employee gets when the payload names none. */
  const DefaultRoleId: Id := 4

  /** A create payload as bound from a body that omits the optional fields
      and `roleId`. */
  function MinimalCreateEmployeeDto(fullname: string, cccd: string, joinDate: Date, email: string): (d: CreateEmployeeDto)
    ensures d.roleId == DefaultRoleId
    ensures d.taxCode.None? && d.phone.None? && d.address.None? && d.bankAccount.None? &&
      d.birthday.None? && d.gender.None? && d.departmentId.None?
  {
    CreateEmployeeDto(fullname, cccd, None, None, None, None, joinDate, None, None, email, DefaultRoleId, None)
  }

  /** The update payload: `fullname` is required, every other field may be
      null. */
  datatype UpdateEmployeeDto = UpdateEmployeeDto(
    fullname: string,
    phone: Option<string>,
    address: Option<string>,
    bankAccount: Option<string>,
    status: Option<string>,
    birthday: Option<Date>,
    gender: Option<string>,
    departmentId: Option<Id>)

  // ---- Format rules of the payloads ----
  // A `[RegularExpression]` rule accepts null and the empty string and
  // otherwise needs the whole value to match.

  /** `^(male|female|other)$`. */
  predicate ValidGender(g: Option<string>) {
    g.None? || g.value in {"", "male", "female", "other"}
  }

  /** `^(active|inactive|suspended)$` on the update payload. */
  predicate ValidUpdateStatus(s: Option<string>) {
    s.None? || s.value in {"", "active", "inactive", "suspended"}
  }

  // ---- Envelopes ----

  /** `ApiResponse<T>`; `errors` is null unless set. */
  datatype ApiResponse<T> = ApiResponse(
    success: bool,
    message: string,
    data: Option<T>,
    errors: Option<seq<string>>)

  const DefaultSuccessMessage: string := "Thành công"

  /** `ApiResponse<T>.SuccessResponse`. */
  function SuccessResponse<T>(data: T, message: string): (r: ApiResponse<T>)
    ensures r.success && r.data == Some(data) && r.message == message && r.errors.None?
  {
    ApiResponse(true, message, Some(data), None)
  }

  /** `ApiResponse<T>.ErrorResponse`: the error list is the one given, or an
      empty list when none is given, but never null. */
  function ErrorResponse<T>(message: string, errors: Option<seq<string>>): (r: ApiResponse<T>)
    ensures !r.success && r.message == message && r.data.None?
    ensures r.errors.Some? && (errors.Some? ==> r.errors == errors) && (errors.None? ==> r.errors == Some([]))
  {
    ApiResponse(false, message, None, Some(errors.GetOr([])))
  }

  /** `PagedResult<T>` and its computed properties. */
  datatype PagedResult<T> = PagedResult(items: seq<T>, totalCount: int, pageNumber: int, pageSize: int)
  {
    /** `(int)Math.Ceiling(TotalCount / (double)PageSize)`, in exact integer
        arithmetic: the least page count whose pages hold every row. */
    function TotalPages(): (n: int)
      requires pageSize >= 1
      ensures (n - 1) * pageSize < totalCount <= n * pageSize
    {
      -((-totalCount) / pageSize)
    }

    function HasPreviousPage(): bool {
      pageNumber > 1
    }

    function HasNextPage(): bool
      requires pageSize >= 1
    {
      pageNumber < TotalPages()
    }
  }

  /** There is a next page exactly when the rows do not all fit in the pages
      up to this one. */
  lemma HasNextPageIffMoreRows<T>(p: PagedResult<T>)
    requires p.pageSize >= 1
    ensures p.HasNextPage() <==> p.pageNumber * p.pageSize < p.totalCount
  {
    var n := p.TotalPages();
    if p.pageNumber < n {
      assert p.pageNumber * p.pageSize <= (n - 1) * p.pageSize;
    } else {
      assert n * p.pageSize <= p.pageNumber * p.pageSize;
    }
  }

  /** An empty result has no pages, hence no next page from any page. */
  lemma EmptyResultHasNoNextPage<T>(p: PagedResult<T>)
    requires p.pageSize >= 1 && p.pageNumber >= 1 && p.totalCount == 0
    ensures p.TotalPages() == 0 && !p.HasNextPage()
  {
    assert (-p.totalCount) / p.pageSize == 0;
  }
}
