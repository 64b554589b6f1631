/** The employee slice of the client store: the list and detail fetch
    states, the reducer for its own actions and for the settled fetches,
    and what the two fetch thunks turn a server answer into. The reducer
    assigns fields of a draft; here it returns the next state. */
module EmployeeSlice {
  import opened Wrappers
  import opened Text
  import opened Store
  import opened Dtos
  import opened Mappings
  import Repository
  import Controller

  datatype EmployeeState = EmployeeState(
    employees: seq<EmployeeListDto>,
    selectedEmployee: Option<EmployeeDetailDto>,
    loading: bool,
    detailLoading: bool,
    error: Option<string>,
    detailError: Option<string>)

  /** The empty list, no selection, nothing loading, no error. */
  const InitialState: EmployeeState := EmployeeState([], None, false, false, None, None)

  /** The three plain actions and the three phases of each fetch. */
  datatype Action =
    | ClearError
    | ClearDetailError
    | ClearSelectedEmployee
    | EmployeesPending
    | EmployeesFulfilled(items: seq<EmployeeListDto>)
    | EmployeesRejected(message: string)
    | DetailPending
    | DetailFulfilled(detail: Option<EmployeeDetailDto>)
    | DetailRejected(message: string)

  /** The actions that belong to the list. */
  predicate IsListAction(a: Action) {
    a.ClearError? || a.EmployeesPending? || a.EmployeesFulfilled? || a.EmployeesRejected?
  }

  /** The list half of the state. */
  function ListPart(s: EmployeeState): (seq<EmployeeListDto>, bool, Option<string>) {
    (s.employees, s.loading, s.error)
  }

  /** The detail half of the state. */
  function DetailPart(s: EmployeeState): (Option<EmployeeDetailDto>, bool, Option<string>) {
    (s.selectedEmployee, s.detailLoading, s.detailError)
  }

  /** The reducer. A list action changes only the list half, a detail
      action only the detail half. */
  function Reduce(s: EmployeeState, a: Action): (r: EmployeeState)
    ensures IsListAction(a) ==> DetailPart(r) == DetailPart(s)
    ensures !IsListAction(a) ==> ListPart(r) == ListPart(s)
  {
    match a
    case ClearError => s.(error := None)
    case ClearDetailError => s.(detailError := None)
    case ClearSelectedEmployee => s.(selectedEmployee := None)
    case EmployeesPending => s.(loading := true, error := None)
    case EmployeesFulfilled(items) => s.(loading := false, employees := items)
    case EmployeesRejected(message) => s.(loading := false, error := Some(message))
    case DetailPending => s.(detailLoading := true, detailError := None)
    case DetailFulfilled(detail) => s.(detailLoading := false, selectedEmployee := detail)
    case DetailRejected(message) => s.(detailLoading := false, detailError := Some(message))
  }

  /** Each clearing action nulls its one field and leaves the rest. */
  lemma ClearsNullOneField(s: EmployeeState)
    ensures Reduce(s, ClearError) == s.(error := None)
    ensures Reduce(s, ClearDetailError) == s.(detailError := None)
    ensures Reduce(s, ClearSelectedEmployee) == s.(selectedEmployee := None)
    ensures Reduce(Reduce(s, ClearError), ClearError) == Reduce(s, ClearError)
  {
  }

  /** A list fetch that settles leaves nothing loading; a successful one
      shows exactly its rows and no error, a failed one keeps the rows it
      had and shows the message. */
  lemma ListFetchSettles(s: EmployeeState, items: seq<EmployeeListDto>, message: string)
    ensures var p := Reduce(s, EmployeesPending);
      p.loading && p.error.None? &&
      Reduce(p, EmployeesFulfilled(items)) == s.(employees := items, loading := false, error := None) &&
      Reduce(p, EmployeesRejected(message)) == s.(loading := false, error := Some(message))
  {
  }

  /** The same for a detail fetch. */
  lemma DetailFetchSettles(s: EmployeeState, d: Option<EmployeeDetailDto>, message: string)
    ensures var p := Reduce(s, DetailPending);
      p.detailLoading && p.detailError.None? &&
      Reduce(p, DetailFulfilled(d)) == s.(selectedEmployee := d, detailLoading := false, detailError := None) &&
      Reduce(p, DetailRejected(message)) == s.(detailLoading := false, detailError := Some(message))
  {
  }

  /** The state after a sequence of actions, in order. */
  function ReduceAll(s: EmployeeState, actions: seq<Action>): EmployeeState
    decreases |actions|
  {
    if actions == [] then s else ReduceAll(Reduce(s, actions[0]), actions[1..])
  }

  /** However many detail actions run, the list half is as it was. */
  lemma {:induction false} DetailActionsKeepList(s: EmployeeState, actions: seq<Action>)
    requires forall i :: 0 <= i < |actions| ==> !IsListAction(actions[i])
    ensures ListPart(ReduceAll(s, actions)) == ListPart(s)
    decreases |actions|
  {
    if actions != [] {
      DetailActionsKeepList(Reduce(s, actions[0]), actions[1..]);
    }
  }

  /** However many list actions run, the detail half is as it was. */
  lemma {:induction false} ListActionsKeepDetail(s: EmployeeState, actions: seq<Action>)
    requires forall i :: 0 <= i < |actions| ==> IsListAction(actions[i])
    ensures DetailPart(ReduceAll(s, actions)) == DetailPart(s)
    decreases |actions|
  {
    if actions != [] {
      ListActionsKeepDetail(Reduce(s, actions[0]), actions[1..]);
    }
  }

  // ---- The fetch thunks ----

  /** The query the list fetch sends: `pageNumber || 1` and
      `pageSize || 1000`, where an absent or zero value takes the default. */
  function FetchParamsAsWritten(pageNumber: Option<int>, pageSize: Option<int>): (r: (int, int))
    ensures pageNumber.Some? && pageNumber.value != 0 ==> r.0 == pageNumber.value
    ensures pageSize.Some? && pageSize.value != 0 ==> r.1 == pageSize.value
    ensures r.1 == 1000 <==> pageSize.None? || pageSize.value in {0, 1000}
  {
    (if pageNumber.None? || pageNumber.value == 0 then 1 else pageNumber.value,
     if pageSize.None? || pageSize.value == 0 then 1000 else pageSize.value)
  }

  /** The default list fetch asks for 1000 rows, a size the server replaces
      by 10: the list holds at most the first ten employees. */
  lemma DefaultFetchGetsTenRows(db: Db, q: Repository.EmployeeQuery)
    ensures FetchParamsAsWritten(None, None) == (1, 1000)
    ensures Controller.ClampPaging(1, 1000) == (1, 10)
    ensures |Controller.GetEmployees(db, 1, 1000, q).body.page.items| <= 10
  {
    var r := Controller.GetEmployees(db, 1, 1000, q);
    assert r.body.page.pageSize == 10;
  }

  /** The query with the default page size the server accepts. */
  function FetchParams(pageNumber: Option<int>, pageSize: Option<int>): (r: (int, int))
    ensures pageNumber.Some? && pageNumber.value != 0 ==> r.0 == pageNumber.value
    ensures pageSize.Some? && pageSize.value != 0 ==> r.1 == pageSize.value
    ensures pageSize.None? || pageSize.value == 0 ==> r.1 == Controller.MaxPageSize
  {
    (if pageNumber.None? || pageNumber.value == 0 then 1 else pageNumber.value,
     if pageSize.None? || pageSize.value == 0 then Controller.MaxPageSize else pageSize.value)
  }

  /** With that default the server serves the page size asked for. */
  lemma DefaultFetchIsHonoured(db: Db, q: Repository.EmployeeQuery)
    ensures var (p, s) := FetchParams(None, None);
      Controller.ClampPaging(p, s) == (p, s) &&
      Controller.GetEmployees(db, p, s, q).body.page.pageSize == s
  {
  }

  const DetailFallback: string := "Failed to fetch employee details"

  /** What the detail fetch dispatches once the request settles. A status
      outside 200..299 makes the HTTP client fail with its own message
      (`transportMessage`); a 2xx answer is fulfilled with its data when it
      reports success, and otherwise rejected with its message, or a
      fixed text when the message is empty. */
  function DetailOutcome(status: int, response: ApiResponse<EmployeeDetailDto>, transportMessage: string): (a: Action)
    ensures !(200 <= status < 300) ==> a == DetailRejected(transportMessage)
    ensures 200 <= status < 300 && response.success ==> a == DetailFulfilled(response.data)
    ensures 200 <= status < 300 && !response.success ==>
      a.DetailRejected? && a.message != [] && (response.message != [] ==> a.message == response.message)
  {
    if !(200 <= status < 300) then DetailRejected(transportMessage)
    else if response.success then DetailFulfilled(response.data)
    else DetailRejected(if response.message == [] then DetailFallback else response.message)
  }

  /** The server's two envelopes as the detail thunk reads them on a 2xx
      answer: a success selects its data, a failure is rejected with its
      message, or with the fallback text when the message is empty. */
  lemma EnvelopesReachTheSlice(d: EmployeeDetailDto, message: string, errors: Option<seq<string>>,
                               status: int, transportMessage: string)
    requires 200 <= status < 300
    ensures DetailOutcome(status, SuccessResponse(d, message), transportMessage) == DetailFulfilled(Some(d))
    ensures DetailOutcome(status, ErrorResponse(message, errors), transportMessage) ==
      DetailRejected(if message == [] then DetailFallback else message)
  {
  }

  /** Fetching a detail from the server: a known id selects its detail view
      with no error; an unknown id is answered 404, so the error shown is the
      HTTP client's message and never the server's, and the previous
      selection stays. */
  lemma DetailFetchAgreesWithServer(s: EmployeeState, db: Db, id: Id, transportMessage: string)
    ensures var r := Controller.GetEmployee(db, id);
      var s' := Reduce(Reduce(s, DetailPending), DetailOutcome(r.status, r.body.response, transportMessage));
      !s'.detailLoading && ListPart(s') == ListPart(s) &&
      (id in db.employees ==>
        s'.selectedEmployee == Some(ToDetailDto(db, db.employees[id])) && s'.detailError.None?) &&
      (id !in db.employees ==>
        s'.selectedEmployee == s.selectedEmployee && s'.detailError == Some(transportMessage))
  {
  }
}
