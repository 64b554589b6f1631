/** The service's refusal messages that the controller inspects, and the
    phrase it looks for in them. */
module Messages {
  import opened Text

  const EmployeeNotFound: string := "Không tìm thấy nhân viên"
  const DepartmentNotFound: string := "Phòng ban không tồn tại"
  const UpdateFailed: string := "Lỗi khi cập nhật nhân viên"

  /** The phrase "not found" that turns a refusal into 404. */
  const NotFoundMarker: string := "Không tìm thấy"

  /** Of the service's refusals of an update, only the missing employee
      says "not found". */
  lemma RefusalMessages()
    ensures Contains(EmployeeNotFound, NotFoundMarker)
    ensures !Contains(DepartmentNotFound, NotFoundMarker)
    ensures !Contains(UpdateFailed, NotFoundMarker)
  {
    EmployeeNotFoundSaysNotFound();
    DepartmentNotFoundLacksMarker();
    UpdateFailedLacksMarker();
  }

  lemma EmployeeNotFoundSaysNotFound()
    ensures Contains(EmployeeNotFound, NotFoundMarker)
  {
    assert OccursAt(EmployeeNotFound, NotFoundMarker, 0);
  }

  /** The department message holds no capital K, the marker's first letter. */
  lemma DepartmentNotFoundLacksMarker()
    ensures !Contains(DepartmentNotFound, NotFoundMarker)
  {
    NotContainsWithoutChar(DepartmentNotFound, NotFoundMarker);
  }

  lemma UpdateFailedLacksMarker()
    ensures !Contains(UpdateFailed, NotFoundMarker)
  {
    NotContainsWithoutChar(UpdateFailed, NotFoundMarker);
  }
}
