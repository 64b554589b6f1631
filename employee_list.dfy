/** The employee list page: the client-side filter over the rows of the
    current page, the distinct department and role options, the status
    labels, and the page number with its stepping buttons. The rows are
    the list view the server returns. */
module EmployeeList {
  import opened Wrappers
  import opened Text
  import opened Dtos
  import opened Sequences

  /** The search box and the three drop-downs; "" selects everything. */
  datatype Filters = Filters(searchTerm: string, department: string, role: string, status: string)

  const NoFilters: Filters := Filters("", "", "", "")

  /** `field.toLowerCase().includes(term.toLowerCase())`. */
  predicate Mentions(field: string, term: string) {
    Contains(Lower(field), Lower(term))
  }

  /** Whether a row passes the filters: the name or the email mentions the
      search term, and each chosen drop-down value equals the row's (a null
      column equals no chosen value). */
  predicate Keeps(f: Filters, e: EmployeeListDto) {
    (Mentions(e.fullname, f.searchTerm) || Mentions(e.email, f.searchTerm)) &&
    (f.department == "" || e.departmentName == Some(f.department)) &&
    (f.role == "" || e.roleName == Some(f.role)) &&
    (f.status == "" || e.status == Some(f.status))
  }

  /** `filteredEmployees`: the rows that pass, in their order. */
  function Filtered(rows: seq<EmployeeListDto>, f: Filters): (r: seq<EmployeeListDto>)
    ensures |r| <= |rows|
    ensures forall e :: e in r <==> e in rows && Keeps(f, e)
  {
    if rows == [] then []
    else (if Keeps(f, rows[0]) then [rows[0]] else []) + Filtered(rows[1..], f)
  }

  /** The filter keeps the order of the rows it passes. */
  lemma {:induction false} FilteredIsSubsequence(rows: seq<EmployeeListDto>, f: Filters)
    ensures Subsequence(Filtered(rows, f), rows)
  {
    if rows != [] {
      FilteredIsSubsequence(rows[1..], f);
      var r := Filtered(rows, f);
      if Keeps(f, rows[0]) {
        assert r[0] == rows[0] && r[1..] == Filtered(rows[1..], f);
      } else {
        assert r == Filtered(rows[1..], f);
        if r != [] {
          assert Subsequence(r, rows[1..]);
        }
      }
    }
  }

  /** Filtering two runs of rows is filtering each. */
  lemma {:induction false} FilteredAppend(a: seq<EmployeeListDto>, b: seq<EmployeeListDto>, f: Filters)
    ensures Filtered(a + b, f) == Filtered(a, f) + Filtered(b, f)
  {
    if a == [] {
      assert a + b == b;
    } else {
      assert (a + b)[0] == a[0];
      assert (a + b)[1..] == a[1..] + b;
      FilteredAppend(a[1..], b, f);
    }
  }

  /** Rows that all pass come through unchanged. */
  lemma {:induction false} AllPassingKept(rows: seq<EmployeeListDto>, f: Filters)
    requires forall i :: 0 <= i < |rows| ==> Keeps(f, rows[i])
    ensures Filtered(rows, f) == rows
  {
    if rows != [] {
      AllPassingKept(rows[1..], f);
    }
  }

  /** Filtering twice with the same choices is filtering once. */
  lemma FilteredIdempotent(rows: seq<EmployeeListDto>, f: Filters)
    ensures Filtered(Filtered(rows, f), f) == Filtered(rows, f)
  {
    var r := Filtered(rows, f);
    assert forall i :: 0 <= i < |r| ==> r[i] in r;
    AllPassingKept(r, f);
  }

  lemma EmptyTermMentioned(field: string)
    ensures Mentions(field, "")
  {
    assert OccursAt(Lower(field), Lower(""), 0);
  }

  /** With every filter empty, every row shows. */
  lemma NoFiltersKeepAll(rows: seq<EmployeeListDto>)
    ensures Filtered(rows, NoFilters) == rows
  {
    forall i | 0 <= i < |rows|
      ensures Keeps(NoFilters, rows[i])
    {
      EmptyTermMentioned(rows[i].fullname);
    }
    AllPassingKept(rows, NoFilters);
  }

  // ---- The option lists ----

  /** The position of the first appearance of `x` in `xs`. */
  function FirstIndex<T(==)>(xs: seq<T>, x: T): (r: nat)
    requires x in xs
    ensures r < |xs| && xs[r] == x
    ensures forall k | 0 <= k < r :: xs[k] != x
  {
    var init := xs[..|xs| - 1];
    if x in init then FirstIndex(init, x) else |xs| - 1
  }

  /** `new Set(xs)` listed in insertion order: each value once, in the
      order of first appearance. */
  function Distinct(xs: seq<string>): (r: seq<string>)
    ensures forall x :: x in r <==> x in xs
    ensures forall i, j :: 0 <= i < j < |r| ==> r[i] != r[j]
    ensures forall i, j :: 0 <= i < j < |r| ==> FirstIndex(xs, r[i]) < FirstIndex(xs, r[j])
  {
    if xs == [] then []
    else
      var init := xs[..|xs| - 1];
      var rest := Distinct(init);
      assert forall x | x in init :: FirstIndex(xs, x) == FirstIndex(init, x) < |init|;
      if xs[|xs| - 1] in rest then rest else rest + [xs[|xs| - 1]]
  }

  /** A list without repeats is its own distinct list. */
  lemma {:induction false} DistinctOfDistinct(xs: seq<string>)
    requires forall i, j :: 0 <= i < j < |xs| ==> xs[i] != xs[j]
    ensures Distinct(xs) == xs
  {
    if xs != [] {
      var init := xs[..|xs| - 1];
      DistinctOfDistinct(init);
      assert xs[|xs| - 1] !in init;
      assert init + [xs[|xs| - 1]] == xs;
    }
  }

  /** `.filter(Boolean)` on names that may be null: the non-empty ones. */
  function PresentNames(names: seq<Option<string>>): (r: seq<string>)
    ensures forall x :: x in r <==> x != "" && Some(x) in names
  {
    if names == [] then []
    else
      var last := names[|names| - 1];
      PresentNames(names[..|names| - 1]) + (if last.Some? && last.value != "" then [last.value] else [])
  }

  /** Dropping the null and empty names keeps the order in which the
      names first appear. */
  lemma {:induction false} PresentNamesKeepFirstOrder(names: seq<Option<string>>, x: string, y: string)
    requires x in PresentNames(names) && y in PresentNames(names)
    requires FirstIndex(PresentNames(names), x) < FirstIndex(PresentNames(names), y)
    ensures FirstIndex(names, Some(x)) < FirstIndex(names, Some(y))
  {
    var init := names[..|names| - 1];
    var p, p' := PresentNames(names), PresentNames(init);
    assert p == p' || p == p' + [names[|names| - 1].value];
    assert p[..|p| - 1] == p' || p == p';
    if x in p' && y in p' {
      assert FirstIndex(p, x) == FirstIndex(p', x) && FirstIndex(p, y) == FirstIndex(p', y);
      PresentNamesKeepFirstOrder(init, x, y);
    } else if x in p' {
      assert Some(y) !in init;
      assert Some(x) in init;
    } else {
      assert false;
    }
  }

  /** The department name of each row, in row order. */
  function DepartmentNames(rows: seq<EmployeeListDto>): seq<Option<string>> {
    seq(|rows|, i requires 0 <= i < |rows| => rows[i].departmentName)
  }

  /** The role name of each row, in row order. */
  function RoleNames(rows: seq<EmployeeListDto>): seq<Option<string>> {
    seq(|rows|, i requires 0 <= i < |rows| => rows[i].roleName)
  }

  /** The options of a name column: each non-empty name once, in the order
      of the first row that carries it. */
  lemma DistinctPresentInFirstOrder(names: seq<Option<string>>)
    ensures var r := Distinct(PresentNames(names));
      (forall d | d in r :: Some(d) in names) &&
      forall i, j :: 0 <= i < j < |r| ==> FirstIndex(names, Some(r[i])) < FirstIndex(names, Some(r[j]))
  {
    var p := PresentNames(names);
    var r := Distinct(p);
    forall i, j | 0 <= i < j < |r| ensures FirstIndex(names, Some(r[i])) < FirstIndex(names, Some(r[j])) {
      PresentNamesKeepFirstOrder(names, r[i], r[j]);
    }
  }

  /** The department options: each non-empty department name on the page,
      once, in the order of the first row that carries it. */
  function Departments(rows: seq<EmployeeListDto>): (r: seq<string>)
    ensures forall d :: d in r <==> d != "" && exists e :: e in rows && e.departmentName == Some(d)
    ensures forall i, j :: 0 <= i < j < |r| ==> r[i] != r[j]
    ensures forall d | d in r :: Some(d) in DepartmentNames(rows)
    ensures forall i, j :: 0 <= i < j < |r| ==> FirstIndex(DepartmentNames(rows), Some(r[i])) < FirstIndex(DepartmentNames(rows), Some(r[j]))
  {
    DepartmentNamesFound(rows);
    DistinctPresentInFirstOrder(DepartmentNames(rows));
    Distinct(PresentNames(DepartmentNames(rows)))
  }

  lemma DepartmentNamesFound(rows: seq<EmployeeListDto>)
    ensures forall d :: Some(d) in DepartmentNames(rows) <==> exists e :: e in rows && e.departmentName == Some(d)
  {
    var names := DepartmentNames(rows);
    forall d ensures Some(d) in names <==> exists e :: e in rows && e.departmentName == Some(d) {
      if Some(d) in names {
        var i :| 0 <= i < |names| && names[i] == Some(d);
        assert rows[i] in rows;
      }
      if exists e :: e in rows && e.departmentName == Some(d) {
        var e :| e in rows && e.departmentName == Some(d);
        var i :| 0 <= i < |rows| && rows[i] == e;
        assert names[i] == Some(d);
      }
    }
  }

  /** The role options: each non-empty role name on the page, once, in the
      order of the first row that carries it. */
  function Roles(rows: seq<EmployeeListDto>): (r: seq<string>)
    ensures forall d :: d in r <==> d != "" && exists e :: e in rows && e.roleName == Some(d)
    ensures forall i, j :: 0 <= i < j < |r| ==> r[i] != r[j]
    ensures forall d | d in r :: Some(d) in RoleNames(rows)
    ensures forall i, j :: 0 <= i < j < |r| ==> FirstIndex(RoleNames(rows), Some(r[i])) < FirstIndex(RoleNames(rows), Some(r[j]))
  {
    RoleNamesFound(rows);
    DistinctPresentInFirstOrder(RoleNames(rows));
    Distinct(PresentNames(RoleNames(rows)))
  }

  lemma RoleNamesFound(rows: seq<EmployeeListDto>)
    ensures forall d :: Some(d) in RoleNames(rows) <==> exists e :: e in rows && e.roleName == Some(d)
  {
    var names := RoleNames(rows);
    forall d ensures Some(d) in names <==> exists e :: e in rows && e.roleName == Some(d) {
      if Some(d) in names {
        var i :| 0 <= i < |names| && names[i] == Some(d);
        assert rows[i] in rows;
      }
      if exists e :: e in rows && e.roleName == Some(d) {
        var e :| e in rows && e.roleName == Some(d);
        var i :| 0 <= i < |rows| && rows[i] == e;
        assert names[i] == Some(d);
      }
    }
  }

  // ---- Status labels ----

  const ActiveLabel: string := "Đang làm việc"
  const InactiveLabel: string := "Tạm nghỉ"
  const TerminatedLabel: string := "Đã nghỉ việc"

  /** `getStatusText`: a label for the three known statuses, any other value
      (null included) as it is. */
  function StatusText(status: Option<string>): (r: Option<string>)
    ensures status == Some("active") ==> r == Some(ActiveLabel)
    ensures status == Some("inactive") ==> r == Some(InactiveLabel)
    ensures status == Some("terminated") ==> r == Some(TerminatedLabel)
    ensures status.None? || status.value !in {"active", "inactive", "terminated"} ==> r == status
  {
    match status
    case Some("active") => Some(ActiveLabel)
    case Some("inactive") => Some(InactiveLabel)
    case Some("terminated") => Some(TerminatedLabel)
    case _ => status
  }

  /** The three labels differ from each other and from the keys, so a label
      tells the known statuses apart and a value is shown unchanged exactly
      when it is not one of them. */
  lemma StatusTextSeparates(s: Option<string>, t: Option<string>)
    requires s.Some? && s.value in {"active", "inactive", "terminated"}
    requires t.Some? && t.value in {"active", "inactive", "terminated"}
    ensures StatusText(s) == StatusText(t) <==> s == t
    ensures StatusText(s) != s
  {
    assert ActiveLabel[0] == 'Đ' && InactiveLabel[0] == 'T' && TerminatedLabel[0] == 'Đ';
    assert ActiveLabel[1] == 'a' && TerminatedLabel[1] == 'ã';
  }

  // ---- Page stepping ----

  /** The previous-page button: `Math.max(p - 1, 1)`. */
  function PreviousPage(p: int): (r: int)
    ensures r >= 1 && (p > 1 ==> r == p - 1) && (p <= 1 ==> r == 1)
  {
    if p - 1 > 1 then p - 1 else 1
  }

  /** The next-page button: `Math.min(p + 1, totalPages)`. */
  function NextPage(p: int, totalPages: int): (r: int)
    ensures r <= totalPages && (p < totalPages ==> r == p + 1) && (p >= totalPages ==> r == totalPages)
  {
    if p + 1 < totalPages then p + 1 else totalPages
  }

  /** From a page in range both buttons stay in range, and each undoes the
      other where it moves. */
  lemma SteppingStaysInRange(p: int, totalPages: int)
    requires 1 <= p <= totalPages
    ensures 1 <= PreviousPage(p) <= totalPages && 1 <= NextPage(p, totalPages) <= totalPages
    ensures p > 1 ==> NextPage(PreviousPage(p), totalPages) == p
    ensures p < totalPages ==> PreviousPage(NextPage(p, totalPages)) == p
  {
  }

  /** The envelope's `HasPreviousPage` and `HasNextPage` say exactly when
      the two buttons move back and forward. */
  lemma ButtonsFollowEnvelope<T>(page: PagedResult<T>)
    requires page.pageSize >= 1
    ensures page.HasPreviousPage() <==> PreviousPage(page.pageNumber) < page.pageNumber
    ensures page.HasNextPage() <==> NextPage(page.pageNumber, page.TotalPages()) > page.pageNumber
  {
  }

  /** The error text the list page shows when its fetch throws. */
  const ListFetchError: string := "Không thể tải danh sách nhân viên"

  /** The page state of the list. */
  class EmployeeListView {
    var employees: seq<EmployeeListDto>
    var filters: Filters
    var pageNumber: int
    var totalPages: int
    var totalCount: int
    var loading: bool
    var error: Option<string>
    const pageSize: int

    /** The page number is at least 1, and a page holding rows has at least
        one page in its count. */
    ghost predicate Valid()
      reads this
    {
      pageNumber >= 1 && pageSize == 5 && (|employees| > 0 ==> totalPages >= 1)
    }

    /** The table is rendered only once loading has ended without an
        error; otherwise the page shows the spinner or the error text. */
    predicate TableShown()
      reads this
    {
      !loading && error.None?
    }

    /** The rows the table shows. */
    function Shown(): seq<EmployeeListDto>
      reads this
    {
      Filtered(employees, filters)
    }

    constructor()
      ensures Valid() && employees == [] && filters == NoFilters
      ensures pageNumber == 1 && totalPages == 1 && totalCount == 0
      ensures loading && error.None?
    {
      employees := [];
      loading := true;
      error := None;
      filters := NoFilters;
      pageNumber := 1;
      totalPages := 1;
      totalCount := 0;
      pageSize := 5;
    }

    /** The fetch effect with a list call that exists: the fetched page
        replaces the rows and the counts and loading ends. No branch clears
        the error, so a page that failed once keeps its error text. */
    method Loaded(page: PagedResult<EmployeeListDto>)
      requires Valid() && page.pageSize >= 1 && |page.items| <= page.totalCount
      modifies this
      ensures Valid()
      ensures employees == page.items && totalPages == page.TotalPages() && totalCount == page.totalCount
      ensures pageNumber == old(pageNumber) && filters == old(filters)
      ensures !loading && error == old(error)
      ensures TableShown() <==> old(error).None?
    {
      employees := page.items;
      totalPages := page.TotalPages();
      totalCount := page.totalCount;
      loading := false;
    }

    /** The fetch effect as written: `employeeService.getAllEmployees` is not
        a member of the service object, so the call throws before any
        request is sent; the catch sets the error text and the finally ends
        loading. The rows and counts stay as they were, and the table is
        never shown. */
    method FetchAsWritten()
      requires Valid()
      modifies this
      ensures Valid() && !loading && error == Some(ListFetchError)
      ensures !TableShown()
      ensures employees == old(employees) && filters == old(filters) && pageNumber == old(pageNumber)
      ensures totalPages == old(totalPages) && totalCount == old(totalCount)
    {
      error := Some(ListFetchError);
      loading := false;
    }

    /** New filter choices; the reset effect runs only when a choice
        changed, and then puts the list back on page 1. */
    method SetFilters(f: Filters)
      requires Valid()
      modifies this
      ensures Valid() && filters == f
      ensures pageNumber == (if f != old(filters) then 1 else old(pageNumber))
      ensures employees == old(employees) && totalPages == old(totalPages) && totalCount == old(totalCount)
      ensures loading == old(loading) && error == old(error)
    {
      if f != filters {
        pageNumber := 1;
      }
      filters := f;
    }

    method SetSearchTerm(term: string)
      requires Valid()
      modifies this
      ensures Valid() && filters == old(filters).(searchTerm := term)
      ensures pageNumber == (if term != old(filters).searchTerm then 1 else old(pageNumber))
      ensures employees == old(employees) && totalPages == old(totalPages) && totalCount == old(totalCount)
      ensures loading == old(loading) && error == old(error)
    {
      SetFilters(filters.(searchTerm := term));
    }

    method SetDepartment(department: string)
      requires Valid()
      modifies this
      ensures Valid() && filters == old(filters).(department := department)
      ensures pageNumber == (if department != old(filters).department then 1 else old(pageNumber))
      ensures employees == old(employees) && totalPages == old(totalPages) && totalCount == old(totalCount)
      ensures loading == old(loading) && error == old(error)
    {
      SetFilters(filters.(department := department));
    }

    method SetRole(role: string)
      requires Valid()
      modifies this
      ensures Valid() && filters == old(filters).(role := role)
      ensures pageNumber == (if role != old(filters).role then 1 else old(pageNumber))
      ensures employees == old(employees) && totalPages == old(totalPages) && totalCount == old(totalCount)
      ensures loading == old(loading) && error == old(error)
    {
      SetFilters(filters.(role := role));
    }

    method SetStatus(status: string)
      requires Valid()
      modifies this
      ensures Valid() && filters == old(filters).(status := status)
      ensures pageNumber == (if status != old(filters).status then 1 else old(pageNumber))
      ensures employees == old(employees) && totalPages == old(totalPages) && totalCount == old(totalCount)
      ensures loading == old(loading) && error == old(error)
    {
      SetFilters(filters.(status := status));
    }

    /** The previous-page button, shown with the table and disabled on page 1. */
    method Previous()
      requires Valid() && Shown() != [] && pageNumber != 1
      modifies this
      ensures Valid() && pageNumber == PreviousPage(old(pageNumber)) && pageNumber == old(pageNumber) - 1
      ensures employees == old(employees) && filters == old(filters) && totalPages == old(totalPages)
      ensures totalCount == old(totalCount)
      ensures loading == old(loading) && error == old(error)
    {
      pageNumber := PreviousPage(pageNumber);
    }

    /** The next-page button, shown with the table and disabled on the last
        page. Since the table shows rows, the count has a page, and the
        number stays at least 1. */
    method Next()
      requires Valid() && Shown() != [] && pageNumber != totalPages
      modifies this
      ensures Valid() && pageNumber == NextPage(old(pageNumber), old(totalPages))
      ensures old(pageNumber) < totalPages ==> pageNumber == old(pageNumber) + 1
      ensures employees == old(employees) && filters == old(filters) && totalPages == old(totalPages)
      ensures totalCount == old(totalCount)
      ensures loading == old(loading) && error == old(error)
    {
      pageNumber := NextPage(pageNumber, totalPages);
    }

    /** The numbered button `i + 1`. */
    method GoTo(i: int)
      requires Valid() && Shown() != [] && 0 <= i < totalPages
      modifies this
      ensures Valid() && pageNumber == i + 1
      ensures employees == old(employees) && filters == old(filters) && totalPages == old(totalPages)
      ensures totalCount == old(totalCount)
      ensures loading == old(loading) && error == old(error)
    {
      pageNumber := i + 1;
    }
  }
}
