/** The HR form for an employee's working information: department id and
    status, filled from the detail the store has selected. As in the older
    status form, a change to "terminated" waits for confirmation; here the
    payload also carries the employee id the form was opened for. */
module HrWorkForm {
  import opened Wrappers
  import opened Store
  import opened Dtos
  import StatusForm

  datatype WorkingInformation = WorkingInformation(employeeId: int, fullname: string, departmentId: int, status: string)

  const DepartmentIdInvalid: string := "Vui lòng nhập ID bộ phận hợp lệ"

  /** The department-id rule. The input always holds a number (an empty or
      non-numeric entry becomes 0), so only the positivity check can fail. */
  function DepartmentIdError(departmentId: int): (r: Option<string>)
    ensures r.None? <==> departmentId > 0
    ensures r.Some? ==> r.value == DepartmentIdInvalid
  {
    if departmentId > 0 then None else Some(DepartmentIdInvalid)
  }

  /** The messages of the failing fields, department first. */
  function FormErrors(data: WorkingInformation): (r: seq<string>)
    ensures r == [] <==> data.departmentId > 0 && StatusForm.IsWorkStatus(data.status)
    ensures |r| <= 2
  {
    (match DepartmentIdError(data.departmentId) case Some(m) => [m] case None => []) +
    (match StatusForm.StatusError(data.status) case Some(m) => [m] case None => [])
  }

  /** `departmentId || 0`. */
  function DepartmentOf(d: EmployeeDetailDto): int {
    if d.departmentId.Some? then d.departmentId.value else 0
  }

  /** The values the form is reset to when a detail arrives for an open
      form: the status falls back to "active". */
  function ResetValues(d: EmployeeDetailDto): (r: WorkingInformation)
    ensures r.employeeId == d.id && r.fullname == d.fullname
    ensures d.departmentId.Some? ==> r.departmentId == d.departmentId.value
    ensures d.departmentId.None? ==> r.departmentId == 0
    ensures r.status == StatusForm.Or(d.status, StatusForm.Active)
  {
    WorkingInformation(d.id, d.fullname, DepartmentOf(d), StatusForm.Or(d.status, StatusForm.Active))
  }

  /** Submitting the form as it opens on a detail: an employee without a
      department is stopped by the department rule until one is entered, and
      one with a department and a known or missing status submits cleanly. */
  lemma OpenedFormErrors(d: EmployeeDetailDto)
    ensures d.departmentId.None? ==> FormErrors(ResetValues(d)) != [] && FormErrors(ResetValues(d))[0] == DepartmentIdInvalid
    ensures (d.departmentId.Some? && d.departmentId.value > 0 &&
      (d.status.None? || d.status.value == [] || StatusForm.IsWorkStatus(d.status.value))) ==>
      FormErrors(ResetValues(d)) == []
    ensures FormErrors(ResetValues(d)) == [] ==> d.departmentId.Some? && d.departmentId.value > 0
  {
  }

  /** `employeeData?.status`. */
  function StoredStatus(stored: Option<EmployeeDetailDto>): Option<string> {
    if stored.Some? then stored.value.status else None
  }

  /** Cancelling restores the stored status, or "terminated" when there is
      none: a stored status is never asked about again, while a missing
      one makes the next submit ask for confirmation once more. */
  lemma CancelledStatus(stored: Option<EmployeeDetailDto>)
    ensures var s := StoredStatus(stored);
      (s.Some? && s.value != [] ==> !StatusForm.NeedsConfirmation(StatusForm.Or(s, StatusForm.Terminated), s)) &&
      (s.None? ==> StatusForm.NeedsConfirmation(StatusForm.Or(s, StatusForm.Terminated), s))
  {
  }

  class HrWorkFormView {
    const employeeId: int
    var stored: Option<EmployeeDetailDto>
    var isOpen: bool
    var form: WorkingInformation
    var defaults: WorkingInformation
    var errors: seq<string>
    var isConfirmOpen: bool
    var pending: Option<WorkingInformation>

    /** The dialog is open exactly while a payload is held back; that
        payload is a valid termination for this form's employee. */
    ghost predicate Valid()
      reads this
    {
      (isConfirmOpen <==> pending.Some?) &&
      (pending.Some? ==>
        employeeId != 0 && pending.value.employeeId == employeeId &&
        pending.value.status == StatusForm.Terminated && FormErrors(pending.value) == [])
    }

    /** A closed form for `id`, before any detail has arrived. */
    constructor(id: int)
      ensures Valid()
      ensures employeeId == id && stored.None? && !isOpen && errors == []
      ensures form == WorkingInformation(0, "", 0, "") && defaults == form
      ensures !isConfirmOpen && pending.None?
    {
      employeeId := id;
      stored := None;
      isOpen := false;
      form := WorkingInformation(0, "", 0, "");
      defaults := form;
      errors := [];
      isConfirmOpen := false;
      pending := None;
    }

    /** A render with a new selected detail or a new open flag: an open form
        with a detail resets its fields (and what a later reset returns to)
        to that detail's values. The effect runs only when one of the two
        changed, so a render with the same values is not a call. */
    method Sync(selected: Option<EmployeeDetailDto>, open: bool)
      requires Valid()
      requires selected != stored || open != isOpen
      modifies this
      ensures Valid()
      ensures stored == selected && isOpen == open
      ensures selected.Some? && open ==>
        form == ResetValues(selected.value) && defaults == form && errors == []
      ensures !(selected.Some? && open) ==>
        form == old(form) && defaults == old(defaults) && errors == old(errors)
      ensures isConfirmOpen == old(isConfirmOpen) && pending == old(pending)
    {
      stored := selected;
      isOpen := open;
      if selected.Some? && open {
        form := ResetValues(selected.value);
        defaults := form;
        errors := [];
      }
    }

    /** The user edits the department id and the status. */
    method Edit(departmentId: int, status: string)
      requires Valid()
      modifies this
      ensures Valid()
      ensures form == old(form).(departmentId := departmentId, status := status)
      ensures stored == old(stored) && errors == old(errors) && isOpen == old(isOpen)
      ensures isConfirmOpen == old(isConfirmOpen) && pending == old(pending) && defaults == old(defaults)
    {
      form := form.(departmentId := departmentId, status := status);
    }

    /** Submit: invalid fields show their messages; otherwise the payload
        is the form with this form's employee id, held back for confirmation
        when it terminates an employee not stored as terminated, and handed
        to `onSubmit` (returned as `submitted`) with the form closing
        otherwise. Without an employee id nothing is handed on. */
    method Submit() returns (submitted: Option<WorkingInformation>, closed: bool)
      requires Valid()
      modifies this
      ensures Valid()
      ensures form == old(form) && stored == old(stored) && defaults == old(defaults) && isOpen == old(isOpen)
      ensures errors == FormErrors(form)
      ensures submitted.Some? ==>
        submitted.value == form.(employeeId := employeeId) && employeeId != 0 &&
        FormErrors(form) == [] && !StatusForm.NeedsConfirmation(form.status, StoredStatus(stored)) && closed
      ensures submitted.None? ==> !closed
      ensures FormErrors(form) == [] && employeeId != 0 && StatusForm.NeedsConfirmation(form.status, StoredStatus(stored)) ==>
        isConfirmOpen && pending == Some(form.(employeeId := employeeId))
      ensures !(FormErrors(form) == [] && employeeId != 0 && StatusForm.NeedsConfirmation(form.status, StoredStatus(stored))) ==>
        isConfirmOpen == old(isConfirmOpen) && pending == old(pending)
      ensures FormErrors(form) == [] && employeeId != 0 && !StatusForm.NeedsConfirmation(form.status, StoredStatus(stored)) ==>
        submitted.Some?
    {
      errors := FormErrors(form);
      submitted, closed := None, false;
      if errors == [] && employeeId != 0 {
        var payload := form.(employeeId := employeeId);
        if StatusForm.NeedsConfirmation(form.status, StoredStatus(stored)) {
          pending := Some(payload);
          isConfirmOpen := true;
        } else {
          submitted, closed := Some(payload), true;
        }
      }
    }

    /** Confirm, with the date the dialog passes: the held-back payload is
        handed on as it was, with no date in it, and both dialogs close.
        With nothing held back nothing happens. */
    method ConfirmDeactivation(terminationDate: string) returns (submitted: Option<WorkingInformation>, closed: bool)
      requires Valid()
      modifies this
      ensures Valid()
      ensures form == old(form) && stored == old(stored) && errors == old(errors) && defaults == old(defaults)
      ensures isOpen == old(isOpen)
      ensures submitted == old(pending)
      ensures submitted.Some? ==>
        submitted.value.employeeId == employeeId && submitted.value.status == StatusForm.Terminated
      ensures old(pending).None? ==> !closed && isConfirmOpen == old(isConfirmOpen) && pending.None?
      ensures old(pending).Some? ==> closed && !isConfirmOpen && pending.None?
    {
      submitted, closed := None, false;
      if pending.Some? && employeeId != 0 {
        submitted := Some(pending.value.(employeeId := employeeId));
        isConfirmOpen := false;
        pending := None;
        closed := true;
      }
    }

    /** Cancel the confirmation: nothing is held back any more, and the
        status and department id return to the stored detail's values, with
        the fallbacks "terminated" and 0. */
    method CancelDeactivation()
      requires Valid()
      modifies this
      ensures Valid()
      ensures !isConfirmOpen && pending.None?
      ensures form == old(form).(
        status := StatusForm.Or(StoredStatus(stored), StatusForm.Terminated),
        departmentId := if stored.Some? then DepartmentOf(stored.value) else 0)
      ensures stored == old(stored) && errors == old(errors) && defaults == old(defaults) && isOpen == old(isOpen)
    {
      isConfirmOpen := false;
      pending := None;
      form := form.(
        status := StatusForm.Or(StoredStatus(stored), StatusForm.Terminated),
        departmentId := if stored.Some? then DepartmentOf(stored.value) else 0);
    }

    /** Close: the form closes and its fields return to the last reset. */
    method Close() returns (closed: bool)
      requires Valid()
      modifies this
      ensures Valid()
      ensures closed && form == defaults && errors == []
      ensures stored == old(stored) && defaults == old(defaults) && isOpen == old(isOpen)
      ensures isConfirmOpen == old(isConfirmOpen) && pending == old(pending)
    {
      closed := true;
      form := defaults;
      errors := [];
    }
  }
}
