/** The older working-information form: department, position and status of
    one employee, where a change to "terminated" is held back until the
    user confirms it in a second dialog. The form fields, the confirmation
    flag and the held-back data are the component's state. */
module StatusForm {
  import opened Wrappers

  const Active: string := "active"
  const Inactive: string := "inactive"
  const Terminated: string := "terminated"

  const DepartmentRequired: string := "Nhân viên phải có bộ phận"
  const PositionRequired: string := "Nhân viên phải có chức vụ"
  const StatusRequired: string := "Nhân viên phải có trạng hái làm việc"
  const StatusInvalid: string := "Trạng thái không hợp lệ"

  /** The status pattern `^(active|inactive|terminated)$`. */
  predicate IsWorkStatus(s: string) {
    s == Active || s == Inactive || s == Terminated
  }

  /** `value || fallback` on an optional string: an absent or empty value
      gives the fallback. */
  function Or(value: Option<string>, fallback: string): (r: string)
    ensures value.Some? && value.value != [] ==> r == value.value
    ensures value.None? || value.value == [] ==> r == fallback
  {
    if value.Some? && value.value != [] then value.value else fallback
  }

  /** The status field's rules: required first, then the pattern. */
  function StatusError(status: string): (r: Option<string>)
    ensures r.None? <==> IsWorkStatus(status)
    ensures status == [] ==> r == Some(StatusRequired)
    ensures status != [] && !IsWorkStatus(status) ==> r == Some(StatusInvalid)
  {
    if status == [] then Some(StatusRequired)
    else if !IsWorkStatus(status) then Some(StatusInvalid)
    else None
  }

  /** Whether a submitted status waits for confirmation: a termination of an
      employee whose stored status is not already "terminated". */
  predicate NeedsConfirmation(status: string, stored: Option<string>) {
    status == Terminated && stored != Some(Terminated)
  }

  datatype WorkingData = WorkingData(department: string, position: string, status: string)

  /** The messages of the failing fields, in field order. The form is
      handed on only when there are none. */
  function FormErrors(data: WorkingData): (r: seq<string>)
    ensures r == [] <==> data.department != [] && data.position != [] && IsWorkStatus(data.status)
    ensures |r| <= 3
    ensures data.department == [] ==> r[0] == DepartmentRequired
  {
    (if data.department == [] then [DepartmentRequired] else []) +
    (if data.position == [] then [PositionRequired] else []) +
    (match StatusError(data.status) case Some(m) => [m] case None => [])
  }

  /** The fields of the edited employee that the form reads. */
  datatype StoredEmployee = StoredEmployee(department: Option<string>, position: Option<string>, status: Option<string>)

  /** The values the form is reset to for an employee. */
  function ResetValues(e: StoredEmployee): (r: WorkingData)
    ensures e.status == Some(Terminated) ==> r.status == Terminated
    ensures IsWorkStatus(r.status) ==> e.status == Some(r.status)
  {
    WorkingData(Or(e.department, ""), Or(e.position, ""), Or(e.status, ""))
  }

  /** Cancelling the confirmation restores a status that never asks for
      confirmation again: the stored one, or "active". */
  lemma CancelledStatusIsSettled(stored: Option<string>)
    ensures !NeedsConfirmation(Or(stored, Active), stored)
    ensures IsWorkStatus(Or(stored, Active)) <==> stored.None? || stored.value == [] || IsWorkStatus(stored.value)
  {
    if stored.Some? && stored.value != [] {
      assert Or(stored, Active) == stored.value;
    } else {
      assert Or(stored, Active) == Active;
    }
  }

  /** A freshly reset form of an employee with a valid status submits
      without confirmation. */
  lemma ResetFormNeedsNoConfirmation(e: StoredEmployee)
    ensures !NeedsConfirmation(ResetValues(e).status, e.status)
  {
    var s := ResetValues(e).status;
    if s == Terminated {
      assert IsWorkStatus(s);
    }
  }

  class StatusFormView {
    var employee: StoredEmployee
    var form: WorkingData
    var errors: seq<string>
    var isConfirmOpen: bool
    var pending: Option<WorkingData>

    /** The confirmation dialog is open exactly while data is held back,
        and what is held back is a valid termination. */
    ghost predicate Valid()
      reads this
    {
      (isConfirmOpen <==> pending.Some?) &&
      (pending.Some? ==> FormErrors(pending.value) == [] && pending.value.status == Terminated)
    }

    constructor(e: StoredEmployee)
      ensures Valid()
      ensures employee == e && form == ResetValues(e) && errors == []
      ensures !isConfirmOpen && pending.None?
    {
      employee := e;
      form := ResetValues(e);
      errors := [];
      isConfirmOpen := false;
      pending := None;
    }

    /** The reset effect: a new employee resets the fields and their errors. */
    method EmployeeChanged(e: StoredEmployee)
      requires Valid()
      modifies this
      ensures Valid()
      ensures employee == e && form == ResetValues(e) && errors == []
      ensures isConfirmOpen == old(isConfirmOpen) && pending == old(pending)
    {
      employee := e;
      form := ResetValues(e);
      errors := [];
    }

    /** The user edits the fields. */
    method Edit(data: WorkingData)
      requires Valid()
      modifies this
      ensures Valid()
      ensures form == data
      ensures employee == old(employee) && errors == old(errors)
      ensures isConfirmOpen == old(isConfirmOpen) && pending == old(pending)
    {
      form := data;
    }

    /** Submit: invalid fields show their messages; a termination that
        needs confirmation is held back and opens the dialog; anything else
        is handed to `onSubmit` (returned as `submitted`) and the form
        closes. */
    method Submit() returns (submitted: Option<WorkingData>, closed: bool)
      requires Valid()
      modifies this
      ensures Valid()
      ensures form == old(form) && employee == old(employee) && errors == FormErrors(form)
      ensures submitted.Some? ==> !NeedsConfirmation(submitted.value.status, employee.status)
      ensures FormErrors(form) != [] ==>
        submitted.None? && !closed && isConfirmOpen == old(isConfirmOpen) && pending == old(pending)
      ensures FormErrors(form) == [] && NeedsConfirmation(form.status, employee.status) ==>
        submitted.None? && !closed && isConfirmOpen && pending == Some(form)
      ensures FormErrors(form) == [] && !NeedsConfirmation(form.status, employee.status) ==>
        submitted == Some(form) && closed && isConfirmOpen == old(isConfirmOpen) && pending == old(pending)
    {
      errors := FormErrors(form);
      submitted, closed := None, false;
      if errors == [] {
        if NeedsConfirmation(form.status, employee.status) {
          pending := Some(form);
          isConfirmOpen := true;
        } else {
          submitted, closed := Some(form), true;
        }
      }
    }

    /** Confirm: the held-back data is handed on unchanged and both dialogs
        close; with nothing held back nothing happens. */
    method ConfirmDeactivation() returns (submitted: Option<WorkingData>, closed: bool)
      requires Valid()
      modifies this
      ensures Valid()
      ensures form == old(form) && employee == old(employee) && errors == old(errors)
      ensures submitted == old(pending)
      ensures submitted.Some? ==> submitted.value.status == Terminated && FormErrors(submitted.value) == []
      ensures old(pending).None? ==> !closed && isConfirmOpen == old(isConfirmOpen) && pending.None?
      ensures old(pending).Some? ==> closed && !isConfirmOpen && pending.None?
    {
      submitted, closed := None, false;
      if pending.Some? {
        submitted := pending;
        isConfirmOpen := false;
        pending := None;
        closed := true;
      }
    }

    /** Cancel the confirmation: nothing is held back any more and the
        status field returns to the stored status, or "active". */
    method CancelDeactivation()
      requires Valid()
      modifies this
      ensures Valid()
      ensures !isConfirmOpen && pending.None?
      ensures form == old(form).(status := Or(employee.status, Active))
      ensures !NeedsConfirmation(form.status, employee.status)
      ensures employee == old(employee) && errors == old(errors)
    {
      isConfirmOpen := false;
      pending := None;
      form := form.(status := Or(employee.status, Active));
      CancelledStatusIsSettled(employee.status);
    }

    /** Close: the form closes and its fields return to the employee's
        values. */
    method Close() returns (closed: bool)
      requires Valid()
      modifies this
      ensures Valid()
      ensures closed && form == ResetValues(employee) && errors == []
      ensures employee == old(employee) && isConfirmOpen == old(isConfirmOpen) && pending == old(pending)
    {
      closed := true;
      form := ResetValues(employee);
      errors := [];
    }
  }
}
