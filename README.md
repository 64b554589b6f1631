# Employee aggregate of the HRM application

This project models the Employee aggregate of a human-resources application.
The model covers both sides of the application.

The .NET backend:
- the EF Core store configuration: tables, unique indexes, foreign keys and delete behaviours;
- the employee repository: the filtered, offset-paged query, the existence probes and the counts;
- the employee service: create in one transaction with a zero Point balance, partial update, soft delete, statistics;
- the AutoMapper profiles;
- the transfer objects: paging envelope, `ApiResponse` factories, format rules;
- the controller's paging clamp and status-code decisions.

The React frontend:
- the profile validators;
- the Redux employee slice;
- the employee list page;
- the profile page;
- the two "terminate needs confirmation" forms and their confirmation dialog;
- the avatar;
- the role-filtered sidebar and the menu table.

The model is organised as follows:
- Each source file is a module. Pure code is functions and lemmas.
- Code that updates state step by step is a class whose methods state the new state: the database context, the repository, the service and the React components with their `useState` fields.
- The database is a value of type `Store.Db`, a record of maps keyed by primary key plus the two identity counters. `Store.Valid` is the conjunction of the configured unique indexes and foreign keys.
- The clock (`DateTime.UtcNow`, `new Date()`), the browser window width and save failures are parameters.

Files:
- `wrappers.dfy`: `Option`/`Result`.
- `text.dfy`: trimming, case mapping, substring search and digit strings, as JavaScript and .NET define them on the characters modelled.
- `sequences.dfy`: the subsequence relation.
- `store.dfy`: `HrmDbContext.cs`.
- `repository.dfy`: `EmployeeRepository.cs`.
- `service.dfy`: `EmployeeService.cs`.
- `mappings.dfy`: `EmployeeMappings.cs`.
- `dtos.dfy`: `EmployeeDtos.cs`.
- `messages.dfy`: the refusal messages shared by service and controller.
- `controller.dfy`: `EmployeeController.cs`.
- `profile_validation.dfy`: `employeeService.ts`.
- `employee_slice.dfy`: `employeeSlice.ts`.
- `employee_list.dfy`: `EmployeeList.tsx`.
- `profile_page.dfy`: `ProfilePage.tsx`.
- `status_form.dfy`: `StatusForm.tsx`.
- `hr_work_form.dfy`: `ProfileFromEmployeeForHR.tsx`.
- `confirm_dialog.dfy`: `ConfirmStatusEmployee.tsx`.
- `avatar.dfy`: `Avatar.tsx`.
- `sidebar.dfy`: `Sidebar.tsx`.
- `app_constants.dfy`: `constants/app.ts`.

## Model

| member | source | states |
|---|---|---|
| Store.EmployeeViolation | src/backend_dotnet/HRMApi/Data/HrmDbContext.cs:385-391 | an Employee row is accepted iff its email and CCCD are unused by other rows, its role exists and its department is null or exists |
| Store.InsertEmployee | src/backend_dotnet/HRMApi/Data/HrmDbContext.cs:385-391 | the insert succeeds iff no constraint is broken; the row gets the next identity key and only the Employee table and its counter change |
| Store.UpdateEmployee | src/backend_dotnet/HRMApi/Data/HrmDbContext.cs:385-391 | an update succeeds iff the row exists and breaks no constraint, and then replaces exactly that row |
| Store.InsertPoint | src/backend_dotnet/HRMApi/Data/HrmDbContext.cs:287-291 | a Point is accepted iff its employee exists and has no Point yet (one-to-one) |
| Store.InsertEmployeeKeepsValid | src/backend_dotnet/HRMApi/Data/HrmDbContext.cs:385-391 | a successful insert keeps every index and foreign key of a valid database |
| Store.InsertEmployeeKeepsUnique | src/backend_dotnet/HRMApi/Data/HrmDbContext.cs:385-391 | after an insert no two employees share an email or a CCCD |
| Store.InsertEmployeeKeepsRefs | src/backend_dotnet/HRMApi/Data/HrmDbContext.cs:259-277 | after an insert every key is still stored under itself and every reference still resolves |
| Store.UpdateEmployeeKeepsValid | src/backend_dotnet/HRMApi/Data/HrmDbContext.cs:385-391 | a successful update keeps a valid database valid |
| Store.InsertPointKeepsValid | src/backend_dotnet/HRMApi/Data/HrmDbContext.cs:287-291 | a successful Point insert keeps the database valid, one Point per employee included |
| Store.Unset | src/backend_dotnet/HRMApi/Data/HrmDbContext.cs:300-311 | set-null: a reference to the deleted employee becomes null, any other reference is kept |
| Store.DeleteEmployee | src/backend_dotnet/HRMApi/Data/HrmDbContext.cs:265-365 | delete is refused iff the row is missing, manages a department or is an approver; otherwise exactly that employee goes, and its cascade (DropPoints, DropAccounts, DropTokens, DropTransactions, DropParticipations, DropAttendances, DropRequests, DropApprovals, DropConversions) and set-null (UnsetCreator, UnsetUpdater) leave no row referring to it |
| Store.DeleteEmployeeKeepsOthers | src/backend_dotnet/HRMApi/Data/HrmDbContext.cs:279-365 | the Drop functions remove a dependent row iff it belongs to the deleted employee; roles, departments, activities and rules all survive |
| Store.DeleteEmployeeKeepsValid | src/backend_dotnet/HRMApi/Data/HrmDbContext.cs:265-365 | a permitted delete keeps the database valid |
| Store.DeleteFreesUniqueValues | src/backend_dotnet/HRMApi/Data/HrmDbContext.cs:385-391 | after a delete the employee's email and CCCD are free for a new row |
| Store.CascadeKeepsKeys | src/backend_dotnet/HRMApi/Data/HrmDbContext.cs:279-365 | the cascade keeps every row under its own key and the identity counters above all keys |
| Store.CascadeKeepsUnique | src/backend_dotnet/HRMApi/Data/HrmDbContext.cs:385-403 | the cascade keeps every unique index |
| Store.CascadeKeepsEmployeeRefs | src/backend_dotnet/HRMApi/Data/HrmDbContext.cs:259-277 | the cascade keeps the employees' role and department references and the departments' manager references |
| Store.CascadeKeepsRefsToEmployees | src/backend_dotnet/HRMApi/Data/HrmDbContext.cs:279-365 | after the cascade every row that refers to an employee refers to an existing one |
| Store.CascadeKeepsOwnedRows | src/backend_dotnet/HRMApi/Data/HrmDbContext.cs:279-338 | after the cascade every row owned by an employee has an existing owner |
| Store.CascadeKeepsNamedEmployees | src/backend_dotnet/HRMApi/Data/HrmDbContext.cs:300-358 | after the cascade actor, creator, approver and updater references resolve or are null |
| Store.CascadeKeepsOtherRefs | src/backend_dotnet/HRMApi/Data/HrmDbContext.cs:320-379 | after the cascade references between the satellite tables still resolve |
| Store.DeleteDepartment | src/backend_dotnet/HRMApi/Data/HrmDbContext.cs:259-263 | deleting a department removes it; ClearDepartment leaves no employee referring to it, and employees of other departments are unchanged |
| Store.DeleteDepartmentKeepsValid | src/backend_dotnet/HRMApi/Data/HrmDbContext.cs:259-263 | deleting a department keeps the database valid |
| Store.DeletedDepartmentRefusesInsert | src/backend_dotnet/HRMApi/Data/HrmDbContext.cs:259-263 | once a department is deleted, no employee can be inserted into it |
| Store.DeleteRoleKeepsValid | src/backend_dotnet/HRMApi/Data/HrmDbContext.cs:273-277 | DeleteRole is refused iff some employee holds the role, and a permitted role delete keeps the database valid |
| Store.DeletedRoleRefusesInsert | src/backend_dotnet/HRMApi/Data/HrmDbContext.cs:273-277 | once a role is deleted, no employee can be inserted with it |
| Store.HrmDbContext.constructor | src/backend_dotnet/HRMApi/Data/HrmDbContext.cs:8-11 | the context starts on the given database |
| Store.HrmDbContext.BeginTransaction | src/backend_dotnet/HRMApi/Services/EmployeeService.cs:138 | the snapshot is the database as it is |
| Store.HrmDbContext.Rollback | src/backend_dotnet/HRMApi/Services/EmployeeService.cs:165-168 | every table returns to the snapshot; identity counters keep their advanced values |
| Store.HrmDbContext.AddPoint | src/backend_dotnet/HRMApi/Services/EmployeeService.cs:152-153 | a faulted save changes nothing; otherwise the database is the Point insert's result, or unchanged when it is refused |
| Store.RollbackKeepsValid | src/backend_dotnet/HRMApi/Services/EmployeeService.cs:165-168 | a rollback to a valid snapshot with advanced counters leaves a valid database |
| Repository.SearchFindsName | src/backend_dotnet/HRMApi/Repositories/EmployeeRepository.cs:51-59 | a non-blank term that occurs in the name, in any letter case, matches |
| Repository.SearchMissesAbsentLetter | src/backend_dotnet/HRMApi/Repositories/EmployeeRepository.cs:51-59 | a term whose first letter occurs in none of name, email, phone and CCCD does not match |
| Repository.MinId | src/backend_dotnet/HRMApi/Repositories/EmployeeRepository.cs:81 | the smallest key of a non-empty key set |
| Repository.SortedIds | src/backend_dotnet/HRMApi/Repositories/EmployeeRepository.cs:81 | `OrderBy(Id)`: all the keys, each once, strictly ascending |
| Repository.Wrap32 | src/backend_dotnet/HRMApi/Repositories/EmployeeRepository.cs:82 | unchecked 32-bit arithmetic: in range, and the identity on in-range values |
| Repository.OffsetOverflows | src/backend_dotnet/HRMApi/Repositories/EmployeeRepository.cs:82 | page 21474838 of 100 rows gives a negative offset as written |
| Repository.OffsetWraps | src/backend_dotnet/HRMApi/Repositories/EmployeeRepository.cs:82 | page 42949674 of 100 rows wraps to offset 4 as written |
| Repository.GetPagedAsWritten | src/backend_dotnet/HRMApi/Repositories/EmployeeRepository.cs:76-86 | as written: a database error iff the wrapped offset is negative; otherwise the matching count, and exactly min(pageSize, total - offset) rows (none past the end), the id-ordered matches from the wrapped offset on |
| Repository.WrappedPageRepeatsEarlyRows | src/backend_dotnet/HRMApi/Repositories/EmployeeRepository.cs:80-84 | as written a page far past the end returns rows; corrected it is empty |
| Repository.OffsetAgreesWithoutOverflow | src/backend_dotnet/HRMApi/Repositories/EmployeeRepository.cs:82 | the as-written offset and the corrected Offset, the rows of all earlier pages, agree whenever the product fits in 32 bits |
| Repository.Slice | src/backend_dotnet/HRMApi/Repositories/EmployeeRepository.cs:82-83 | `Skip(skip).Take(take)`: its exact length and element i is input element skip+i |
| Repository.PageAt | src/backend_dotnet/HRMApi/Repositories/EmployeeRepository.cs:76-86 | from a given offset: the count of MatchingIds, exactly min(take, total - skip) rows, row i being the match at position skip + i in id order (Rows) |
| Repository.GetPaged | src/backend_dotnet/HRMApi/Repositories/EmployeeRepository.cs:76-86 | the total is the matching count taken before paging; there are exactly min(pageSize, total - offset) items (none past the end), and item i is the match at position offset + i in id order |
| Repository.PageRowsMatchInOrder | src/backend_dotnet/HRMApi/Repositories/EmployeeRepository.cs:80-84 | every row on a page passes the filters and is stored, and the ids strictly ascend |
| Repository.PageBeyondEndIsEmpty | src/backend_dotnet/HRMApi/Repositories/EmployeeRepository.cs:82-83 | a page whose offset is at or past the match count is empty |
| Repository.ConsecutiveSlices | src/backend_dotnet/HRMApi/Repositories/EmployeeRepository.cs:81-83 | consecutive slices of an ascending list hold strictly ascending values |
| Repository.PagesAreDisjoint | src/backend_dotnet/HRMApi/Repositories/EmployeeRepository.cs:80-84 | every id on a page is below every id on the next page, so pages share no employee |
| Repository.ProbesSeeOnlyOthers | src/backend_dotnet/HRMApi/Repositories/EmployeeRepository.cs:117-139 | in a valid database an employee's own email and CCCD exist, and do not exist once its id is excluded |
| Repository.ProbesGuardInsert | src/backend_dotnet/HRMApi/Repositories/EmployeeRepository.cs:117-139 | negative email and CCCD probes are what the unique indexes need for an insert |
| Repository.TaxCodeMayRepeat | src/backend_dotnet/HRMApi/Repositories/EmployeeRepository.cs:141-151 | a valid database can hold two employees with the same tax code (no index) |
| Repository.ActiveAtMostTotal | src/backend_dotnet/HRMApi/Repositories/EmployeeRepository.cs:153-161 | the count of ActiveIds, the employees whose status is "active", is at most the total count |
| Repository.GroupCountsSum | src/backend_dotnet/HRMApi/Repositories/EmployeeRepository.cs:163-178 | the GroupCounts entries, one per occurring key, add up to the number of rows |
| Repository.CountByStatusSumsToTotal | src/backend_dotnet/HRMApi/Repositories/EmployeeRepository.cs:163-169 | the per-status counts (null under "unknown") add up to the total |
| Repository.CountByDepartmentSumsToTotal | src/backend_dotnet/HRMApi/Repositories/EmployeeRepository.cs:171-178 | the per-department counts ("No Department" for none) add up to the total |
| Repository.CountByStatusAgreesWithActive | src/backend_dotnet/HRMApi/Repositories/EmployeeRepository.cs:158-169 | the "active" entry exists iff some employee is active, and equals the active count |
| Repository.EmployeeRepository.constructor | src/backend_dotnet/HRMApi/Repositories/EmployeeRepository.cs:11-14 | the repository works on the given context |
| Repository.EmployeeRepository.AddAsync | src/backend_dotnet/HRMApi/Repositories/EmployeeRepository.cs:89-94 | a faulted save changes nothing; otherwise the insert's result is stored and the row with its generated key returned, or the refusal returned with nothing changed |
| Repository.EmployeeRepository.UpdateAsync | src/backend_dotnet/HRMApi/Repositories/EmployeeRepository.cs:96-100 | the stored row with the same key is replaced, or nothing changes on a fault or refusal |
| Repository.EmployeeRepository.DeleteAsync | src/backend_dotnet/HRMApi/Repositories/EmployeeRepository.cs:102-110 | a missing key is a no-op; otherwise the configured delete runs, or nothing changes on a fault or refusal |
| Service.CreateRejection | src/backend_dotnet/HRMApi/Services/EmployeeService.cs:80-129 | a create payload passes iff email and CCCD are unused, the tax code is empty or unused, the effective role exists and the department is absent or exists; otherwise the message is that of the first broken rule in the order email, CCCD, tax code, role, department |
| Service.NewEmployee | src/backend_dotnet/HRMApi/Services/EmployeeService.cs:105-135 | the new entity has the effective role (EffectiveRole: the payload's, or the default role 4 for 0), status "active" and the payload's email, CCCD and department |
| Service.OmittedRoleGetsDefault | src/backend_dotnet/HRMApi/Dtos/EmployeeDtos.cs:78-79 | a payload that omits the role (MinimalCreateEmployeeDto) or sends 0 is created with role 4, no department and status "active", keeping the fields it sent |
| Service.Created | src/backend_dotnet/HRMApi/Services/EmployeeService.cs:137-155 | a committed create returns the mapped entity keyed by the next identity value, and the employees table gains exactly that row |
| Service.CreateSucceeds | src/backend_dotnet/HRMApi/Services/EmployeeService.cs:132-163 | on a valid database an accepted payload commits: one new employee, "active", and exactly one Point for it with total 0, and the database stays valid |
| Service.TakenEmailIsRefused | src/backend_dotnet/HRMApi/Services/EmployeeService.cs:80-86 | a taken email gives the email message, whatever else is wrong |
| Service.UpdateRejection | src/backend_dotnet/HRMApi/Services/EmployeeService.cs:184-203 | an update passes iff the employee exists and the department is absent or exists |
| Service.UpdateSucceeds | src/backend_dotnet/HRMApi/Services/EmployeeService.cs:205-217 | on a valid database an accepted update is stored, keeps the database valid and changes only that row |
| Service.UpdateKeepsStatusDomain | src/backend_dotnet/HRMApi/Services/EmployeeService.cs:205-209 | an update whose status passes the payload rule leaves the stored status null or a known status |
| Service.SoftDeleteSucceeds | src/backend_dotnet/HRMApi/Services/EmployeeService.cs:241-249 | the soft delete keeps every row and every other table, removes only that employee from the active set and keeps the database valid |
| Service.GetEmployees | src/backend_dotnet/HRMApi/Services/EmployeeService.cs:28-49 | the envelope carries the matching count, the page number and size, and the list views of the page's rows |
| Service.ListedEmployeesMatch | src/backend_dotnet/HRMApi/Services/EmployeeService.cs:38-49 | every listed employee is stored and passes the filters; there is a next page iff rows remain past this page |
| Service.GetEmployeeById | src/backend_dotnet/HRMApi/Services/EmployeeService.cs:58-67 | a detail view exists iff the employee does, and carries its id and email |
| Service.GetStatistics | src/backend_dotnet/HRMApi/Services/EmployeeService.cs:280-296 | total is the row count; inactive is total minus active, i.e. everyone not active |
| Service.StatisticsAgree | src/backend_dotnet/HRMApi/Services/EmployeeService.cs:284-296 | both breakdowns add up to the total, and the "active" status entry is the active count |
| Service.EmployeeService.constructor | src/backend_dotnet/HRMApi/Services/EmployeeService.cs:16-26 | the service and its repository share one context |
| Service.EmployeeService.CreateEmployeeAsync | src/backend_dotnet/HRMApi/Services/EmployeeService.cs:76-178 | a refused payload gets its message and changes nothing; a committed one stores employee and Point; a failed save rolls every table back and reports "Lỗi khi tạo nhân viên" |
| Service.EmployeeService.UpdateEmployeeAsync | src/backend_dotnet/HRMApi/Services/EmployeeService.cs:180-226 | a refusal changes nothing; success stores the mapped row and returns its view; a failed save changes nothing |
| Service.EmployeeService.DeleteEmployeeAsync | src/backend_dotnet/HRMApi/Services/EmployeeService.cs:228-258 | an unknown id gets "Không tìm thấy nhân viên" and changes nothing; otherwise the row is marked inactive, or nothing changes on a failed save |
| Mappings.ListViewAgreesWithDetailView | src/backend_dotnet/HRMApi/Mappings/EmployeeMappings.cs:12-19 | every field of the list view equals the same field of the detail view |
| Mappings.ViewsResolveNames | src/backend_dotnet/HRMApi/Mappings/EmployeeMappings.cs:12-19 | on a valid database every view carries the role name (RoleName), and a department name (DepartmentName) iff a department is set |
| Mappings.MapCreateCopiesPayload | src/backend_dotnet/HRMApi/Mappings/EmployeeMappings.cs:22-40 | MapCreate carries every payload field to the entity unchanged, leaves the key 0 for the database, starts the status "active" and stamps both times with now |
| Mappings.ApplyUpdateKeepsIdentity | src/backend_dotnet/HRMApi/Mappings/EmployeeMappings.cs:44-49 | an update never changes Id, CCCD, tax code, email, role or join date |
| Mappings.ApplyUpdateNullSkips | src/backend_dotnet/HRMApi/Mappings/EmployeeMappings.cs:66 | each nullable field keeps its stored value when null in the payload and takes the payload's value otherwise (Overwrite) |
| Mappings.ApplyUpdateResetsCreatedAt | src/backend_dotnet/HRMApi/Mappings/EmployeeMappings.cs:50-51 | the update map writes both CreatedAt and UpdatedAt from the current time |
| Mappings.ApplyUpdateIdempotent | src/backend_dotnet/HRMApi/Mappings/EmployeeMappings.cs:43-66 | applying the same payload twice equals applying it once at the later time |
| Mappings.EmptyUpdateChangesOnlyStamps | src/backend_dotnet/HRMApi/Mappings/EmployeeMappings.cs:43-66 | an all-null payload with the stored name changes only the two stamps |
| Messages.RefusalMessages | src/backend_dotnet/HRMApi/Controllers/EmployeeController.cs:157 | of the update refusals only the missing-employee message contains "Không tìm thấy" |
| Messages.EmployeeNotFoundSaysNotFound | src/backend_dotnet/HRMApi/Services/EmployeeService.cs:188-190 | the missing-employee message contains the marker |
| Messages.DepartmentNotFoundLacksMarker | src/backend_dotnet/HRMApi/Services/EmployeeService.cs:199-201 | the missing-department message does not contain the marker |
| Messages.UpdateFailedLacksMarker | src/backend_dotnet/HRMApi/Services/EmployeeService.cs:222-224 | the failed-update message does not contain the marker |
| Dtos.PagedResult.TotalPages | src/backend_dotnet/HRMApi/Dtos/EmployeeDtos.cs:147 | the ceiling of total over page size: the least n with total ≤ n·pageSize |
| Dtos.HasNextPageIffMoreRows | src/backend_dotnet/HRMApi/Dtos/EmployeeDtos.cs:149 | there is a next page iff pageNumber·pageSize < total |
| Dtos.EmptyResultHasNoNextPage | src/backend_dotnet/HRMApi/Dtos/EmployeeDtos.cs:147-149 | an empty result has 0 pages and no next page |
| Controller.ClampPaging | src/backend_dotnet/HRMApi/Controllers/EmployeeController.cs:37-38 | page numbers below 1 become 1; sizes outside 1..100 become 10, not the nearest bound; in-range values pass |
| Controller.ClampPagingIdempotent | src/backend_dotnet/HRMApi/Controllers/EmployeeController.cs:37-38 | clamping clamped values changes nothing |
| Controller.GetEmployees | src/backend_dotnet/HRMApi/Controllers/EmployeeController.cs:27-52 | always 200; the page is the service's page for the clamped number and size, so at most 100 rows and the matching count |
| Controller.GetEmployeesAsWritten | src/backend_dotnet/HRMApi/Controllers/EmployeeController.cs:35-51 | as written: 500 when the repository's offset overflows, otherwise the page |
| Controller.LargePageNumber | src/backend_dotnet/HRMApi/Controllers/EmployeeController.cs:37-51 | page 21474838 of size 100 passes the clamp and fails with 500 as written; corrected it is an empty page |
| Controller.GetEmployee | src/backend_dotnet/HRMApi/Controllers/EmployeeController.cs:60-84 | 200 iff the employee exists (Repository.FindEmployee), else 404; success flag and status agree |
| Controller.BadRequestsDiffer | src/backend_dotnet/HRMApi/Controllers/EmployeeController.cs:97-118 | an invalid payload (InvalidModel) and a refused create are both 400, told apart by a validation problem versus the service's envelope |
| Controller.CreateAnswers | src/backend_dotnet/HRMApi/Controllers/EmployeeController.cs:108-118 | through CreateResult, a refused create is 400 with the refusal's message and a stored one is 201 at the key the database assigned |
| Controller.UpdateRefusalCodes | src/backend_dotnet/HRMApi/Controllers/EmployeeController.cs:155-161 | through UpdateResult, a missing employee → 404; a missing department and a failed save → 400 |
| Controller.UpdateRejectionStatus | src/backend_dotnet/HRMApi/Controllers/EmployeeController.cs:155-161 | a pre-write refusal is 404 iff the employee is missing |
| Controller.RefusalStatus | src/backend_dotnet/HRMApi/Controllers/EmployeeController.cs:155-161 | the status of a refusal depends only on which message it carries |
| Controller.SaveFailureStatus | src/backend_dotnet/HRMApi/Controllers/EmployeeController.cs:153-192 | a failed save is 404 on delete (DeleteResult) but 400 on update; a delete that goes through is 200 |
| Controller.CheckEmailAgreesWithCreate | src/backend_dotnet/HRMApi/Controllers/EmployeeController.cs:208-216 | CheckEmail reports true iff create would refuse the email first |
| Controller.CheckCccdAgreesWithCreate | src/backend_dotnet/HRMApi/Controllers/EmployeeController.cs:231-239 | CheckCccd reports true, with the email free, iff create refuses the CCCD |
| Controller.GetStatisticsResult | src/backend_dotnet/HRMApi/Controllers/EmployeeController.cs:254-263 | 200 with exactly the service's statistics, so active + inactive is the total and each breakdown sums to it (Service.StatisticsAgree) |
| Text.TrimEmptyIffBlank | src/frontend/src/services/employeeService.ts:155 | `!s.trim()` holds exactly for blank strings |
| Text.TrimIdempotent | src/frontend/src/services/employeeService.ts:161 | trimming twice is trimming once |
| Text.TrimKeepsDigits | src/frontend/src/services/employeeService.ts:182-185 | trimming removes no digit |
| Text.LowerIdempotent | src/frontend/src/services/employeeService.ts:173 | lower-casing twice is lower-casing once |
| Text.Contains | src/backend_dotnet/HRMApi/Repositories/EmployeeRepository.cs:55-58 | ordinal substring search: true iff the needle occurs at some position |
| Text.NatToString | src/frontend/src/components/profile/ConfirmStatusEmployee.tsx:6-9 | decimal rendering: a non-empty string of digits |
| Text.ParseNatToString | src/frontend/src/components/profile/ConfirmStatusEmployee.tsx:6-9 | a rendered number reads back as itself |
| Text.PadStart | src/frontend/src/components/profile/ConfirmStatusEmployee.tsx:7-8 | `padStart`: at least the width long, the fill before the unchanged string |
| ProfileValidation.EmailPatternIsShape | src/frontend/src/services/employeeService.ts:169-170 | the regular expression holds iff no white space, exactly one '@', text on both sides and a '.' with text on both sides after it |
| ProfileValidation.EmailPatternIsTrimmed | src/frontend/src/services/employeeService.ts:169-173 | a matching address is its own trim |
| ProfileValidation.EmailPatternSurvivesLower | src/frontend/src/services/employeeService.ts:169-173 | lower-casing keeps an address matching |
| ProfileValidation.ValidateProfileData | src/frontend/src/services/employeeService.ts:150-197 | accepted iff no rule is broken; otherwise the first broken rule in the order name, email, phone, address; only defined fields are returned |
| ProfileValidation.Accepted | src/frontend/src/services/employeeService.ts:150-197 | an accepted profile broke no rule; its name, phone and address come back trimmed and its email trimmed and lower-cased |
| ProfileValidation.AcceptedName | src/frontend/src/services/employeeService.ts:154-161 | an accepted name trims to a non-empty string that starts without white space and has at most 100 characters |
| ProfileValidation.AcceptedEmail | src/frontend/src/services/employeeService.ts:165-173 | an accepted email matches the pattern and trimming does not change its lower-cased form |
| ProfileValidation.AcceptedPhone | src/frontend/src/services/employeeService.ts:177-185 | the trimmed accepted phone holds 10 or 11 digits |
| ProfileValidation.ValidatedProfileIsNormal | src/frontend/src/services/employeeService.ts:150-197 | in an accepted profile the name is non-empty, starts without white space and has at most 100 characters; the email is the lower-cased input, which matches the pattern; the phone holds 10 or 11 digits; the address at most 500 characters |
| ProfileValidation.NameStable | src/frontend/src/services/employeeService.ts:154-161 | a name passing the rule whose trim keeps two or more characters validates again unchanged |
| ProfileValidation.EmailValueStable | src/frontend/src/services/employeeService.ts:165-173 | a validated email validates again unchanged |
| ProfileValidation.EmailStable | src/frontend/src/services/employeeService.ts:165-173 | the email field is stable under validation |
| ProfileValidation.PhoneStable | src/frontend/src/services/employeeService.ts:177-185 | a validated phone validates again unchanged |
| ProfileValidation.AddressStable | src/frontend/src/services/employeeService.ts:189-194 | a validated address validates again unchanged |
| ProfileValidation.NoProblemAccepted | src/frontend/src/services/employeeService.ts:150-197 | a profile breaking no rule is accepted, field by field normalised |
| ProfileValidation.NormalFieldsAccepted | src/frontend/src/services/employeeService.ts:150-197 | normalised fields pass every rule again |
| ProfileValidation.ValidateProfileStable | src/frontend/src/services/employeeService.ts:150-197 | validating an accepted profile again gives the same profile, unless trimming shortened the name below two characters |
| ProfileValidation.ShortNameTrimmed | src/frontend/src/services/employeeService.ts:158-161 | "a " passes the name rule and trims to "a" |
| ProfileValidation.ShortNameAccepted | src/frontend/src/services/employeeService.ts:158-161 | a profile named "a " is accepted with name "a" |
| ProfileValidation.ShortNameRefused | src/frontend/src/services/employeeService.ts:158-159 | a profile named "a" is refused with the length message |
| ProfileValidation.TrimmedNameCanBeShort | src/frontend/src/services/employeeService.ts:158-161 | because length is measured before trimming, an accepted name can be one character long |
| ProfileValidation.ValidateEmployeeData | src/frontend/src/services/employeeService.ts:202-218 | profile errors come first; then the first of a blank code, department or position, in that order, gives its message; an accepted result is the profile fields only |
| EmployeeSlice.Reduce | src/frontend/src/store/employeeSlice.ts:103-140 | a list action leaves the detail half unchanged and a detail or clearing action leaves the list half unchanged |
| EmployeeSlice.ClearsNullOneField | src/frontend/src/store/employeeSlice.ts:103-111 | each clearing action nulls exactly its one field, and clearing twice is clearing once |
| EmployeeSlice.ListFetchSettles | src/frontend/src/store/employeeSlice.ts:116-127 | pending sets loading and clears the error; fulfilled stores the rows; rejected stores the message; both stop loading |
| EmployeeSlice.DetailFetchSettles | src/frontend/src/store/employeeSlice.ts:129-140 | the same three phases for the detail fetch |
| EmployeeSlice.DetailActionsKeepList | src/frontend/src/store/employeeSlice.ts:129-140 | any run of detail actions leaves the list fields as they were |
| EmployeeSlice.ListActionsKeepDetail | src/frontend/src/store/employeeSlice.ts:116-127 | any run of list actions leaves the detail fields as they were |
| EmployeeSlice.FetchParamsAsWritten | src/frontend/src/store/employeeSlice.ts:63-64 | as written: `pageNumber \|\| 1` and `pageSize \|\| 1000` |
| EmployeeSlice.DefaultFetchGetsTenRows | src/frontend/src/store/employeeSlice.ts:64 | the default size 1000 is clamped to 10 by the server, so the default fetch gets at most 10 rows |
| EmployeeSlice.DefaultFetchIsHonoured | src/frontend/src/store/employeeSlice.ts:63-64 | with the corrected FetchParams default the server serves the size asked for |
| EmployeeSlice.DetailOutcome | src/frontend/src/store/employeeSlice.ts:80-95 | a transport failure rejects with its message; an unsuccessful envelope rejects with the server message; a successful one fulfils with the data |
| EmployeeSlice.EnvelopesReachTheSlice | src/frontend/src/store/employeeSlice.ts:80-91 | on a 2xx answer a SuccessResponse selects its data and an ErrorResponse is rejected with its message, or the fallback when empty |
| EmployeeSlice.DetailFetchAgreesWithServer | src/frontend/src/store/employeeSlice.ts:87-91 | fetching a known id selects its detail view with no error; an unknown id is answered 404, so the stored detail error is the HTTP client's own message, never the server's text, and the previous selection stays |
| EmployeeList.Filtered | src/frontend/src/pages/profile/EmployeeList.tsx:79-89 | a row is kept iff it passes the search term and the three drop-downs; never more rows than given |
| EmployeeList.FilteredIsSubsequence | src/frontend/src/pages/profile/EmployeeList.tsx:80 | the kept rows are a subsequence of the page's rows, in order |
| EmployeeList.FilteredAppend | src/frontend/src/pages/profile/EmployeeList.tsx:79-89 | filtering two runs of rows is filtering each |
| EmployeeList.AllPassingKept | src/frontend/src/pages/profile/EmployeeList.tsx:79-89 | rows that all pass come through unchanged |
| EmployeeList.FilteredIdempotent | src/frontend/src/pages/profile/EmployeeList.tsx:79-89 | filtering twice with the same choices is filtering once |
| EmployeeList.EmptyTermMentioned | src/frontend/src/pages/profile/EmployeeList.tsx:81-82 | the empty search term is contained in every field |
| EmployeeList.NoFiltersKeepAll | src/frontend/src/pages/profile/EmployeeList.tsx:79-89 | with every filter empty every row shows |
| EmployeeList.Distinct | src/frontend/src/pages/profile/EmployeeList.tsx:69-76 | `new Set` listed: the same values, each once, in the order of their first appearance |
| EmployeeList.DistinctOfDistinct | src/frontend/src/pages/profile/EmployeeList.tsx:69-76 | a list without repeats is its own distinct list, order kept |
| EmployeeList.PresentNames | src/frontend/src/pages/profile/EmployeeList.tsx:69-76 | `filter(Boolean)`: exactly the non-empty names present |
| EmployeeList.PresentNamesKeepFirstOrder | src/frontend/src/pages/profile/EmployeeList.tsx:69-76 | `filter(Boolean)` keeps the order in which names first appear |
| EmployeeList.DistinctPresentInFirstOrder | src/frontend/src/pages/profile/EmployeeList.tsx:69-76 | the options of a name column come in the order of the first row carrying each name |
| EmployeeList.Departments | src/frontend/src/pages/profile/EmployeeList.tsx:69-72 | each non-empty department name on the page, exactly once, ordered by the first row that carries it |
| EmployeeList.Roles | src/frontend/src/pages/profile/EmployeeList.tsx:73-76 | each non-empty role name on the page, exactly once, ordered by the first row that carries it |
| EmployeeList.StatusTextSeparates | src/frontend/src/pages/profile/EmployeeList.tsx:109-120 | StatusText gives the three statuses distinct labels, each differing from every key |
| EmployeeList.PreviousPage | src/frontend/src/pages/profile/EmployeeList.tsx:312-313 | `max(p − 1, 1)` |
| EmployeeList.NextPage | src/frontend/src/pages/profile/EmployeeList.tsx:328-329 | `min(p + 1, totalPages)` |
| EmployeeList.SteppingStaysInRange | src/frontend/src/pages/profile/EmployeeList.tsx:312-329 | from a page in range both buttons stay in range, and each undoes the other away from the ends |
| EmployeeList.ButtonsFollowEnvelope | src/backend_dotnet/HRMApi/Dtos/EmployeeDtos.cs:148-149 | `HasPreviousPage` holds iff Previous moves back; `HasNextPage` holds iff Next moves forward |
| EmployeeList.EmployeeListView.constructor | src/frontend/src/pages/profile/EmployeeList.tsx:30-42 | no rows, no filters, page 1 of 1, loading and no error |
| EmployeeList.EmployeeListView.Loaded | src/frontend/src/pages/profile/EmployeeList.tsx:45-61 | corrected fetch: the page replaces the rows, the page count and the total, loading ends, page, filters and error are kept, and the table shows iff there was no error |
| EmployeeList.EmployeeListView.FetchAsWritten | src/frontend/src/pages/profile/EmployeeList.tsx:44-61 | as written: the undefined list call throws, so the error text is set, loading ends, the rows stay and the table is never shown |
| EmployeeList.EmployeeListView.SetFilters | src/frontend/src/pages/profile/EmployeeList.tsx:64-66 | new choices reset the page to 1 iff a choice changed |
| EmployeeList.EmployeeListView.SetSearchTerm | src/frontend/src/pages/profile/EmployeeList.tsx:64-66 | a changed search term resets the page to 1 |
| EmployeeList.EmployeeListView.SetDepartment | src/frontend/src/pages/profile/EmployeeList.tsx:64-66 | a changed department resets the page to 1 |
| EmployeeList.EmployeeListView.SetRole | src/frontend/src/pages/profile/EmployeeList.tsx:64-66 | a changed role resets the page to 1 |
| EmployeeList.EmployeeListView.SetStatus | src/frontend/src/pages/profile/EmployeeList.tsx:64-66 | a changed status resets the page to 1 |
| EmployeeList.EmployeeListView.Previous | src/frontend/src/pages/profile/EmployeeList.tsx:312-313 | the page becomes `max(p − 1, 1)`, here p − 1 |
| EmployeeList.EmployeeListView.Next | src/frontend/src/pages/profile/EmployeeList.tsx:328-329 | the page becomes `min(p + 1, totalPages)` |
| EmployeeList.EmployeeListView.GoTo | src/frontend/src/pages/profile/EmployeeList.tsx:318-321 | button i + 1 selects page i + 1 |
| ProfilePage.MaskSensitiveInfo | src/frontend/src/pages/profile/ProfilePage.tsx:40-45 | a value no longer than showLength is unchanged; a longer one keeps its length and last showLength characters, the rest '*' |
| ProfilePage.MaskHidesTheRest | src/frontend/src/pages/profile/ProfilePage.tsx:40-45 | two values of equal length with equal last characters mask identically |
| ProfilePage.MaskTwelveDigits | src/frontend/src/pages/profile/ProfilePage.tsx:397 | a 12-character CCCD shows as eight '*' and its last four characters (default showLength 4) |
| ProfilePage.Toggled | src/frontend/src/pages/profile/ProfilePage.tsx:100-105 | the toggle flips the named flag only |
| ProfilePage.ToggleTwice | src/frontend/src/pages/profile/ProfilePage.tsx:100-105 | toggling twice restores every flag |
| ProfilePage.ToggleRevealsAndHides | src/frontend/src/pages/profile/ProfilePage.tsx:396-400 | the eye button reveals a hidden value in full (SensitiveView), masks a shown one, leaves other rows as displayed; a hidden 12-digit CCCD shows only its last four |
| ProfilePage.SaveRejection | src/frontend/src/pages/profile/ProfilePage.tsx:127-135 | a save is rejected iff name, phone or email is missing; the message is that of the first missing field in the order name, phone, email |
| ProfilePage.ValidatedFormSaves | src/frontend/src/pages/profile/ProfilePage.tsx:127-135 | every form with all three fields that the profile validator accepts passes the save checks |
| ProfilePage.BadEmailSaved | src/frontend/src/pages/profile/ProfilePage.tsx:127-135 | an email "x" passes the save check |
| ProfilePage.BadEmailRefusedByValidator | src/frontend/src/services/employeeService.ts:169-172 | the profile validator refuses the email "x" |
| ProfilePage.SaveSkipsFormatRules | src/frontend/src/pages/profile/ProfilePage.tsx:127-135 | the save checks presence only: a form the validator refuses is saved |
| ProfilePage.MergeOverrides | src/frontend/src/pages/profile/ProfilePage.tsx:141-144 | `{...employee, ...editForm}`: form fields override, others are kept; merging the form again changes nothing |
| ProfilePage.ProfileView.constructor | src/frontend/src/pages/profile/ProfilePage.tsx:63-68 | the page starts on the session user, not editing, with no flags and no error |
| ProfilePage.ProfileView.LoadProfile | src/frontend/src/pages/profile/ProfilePage.tsx:75-97 | loading sets employee and edit form to the session user and clears the error |
| ProfilePage.ProfileView.ToggleSensitiveInfo | src/frontend/src/pages/profile/ProfilePage.tsx:100-105 | the flags become the toggled flags; nothing else changes |
| ProfilePage.ProfileView.Edit | src/frontend/src/pages/profile/ProfilePage.tsx:108-111 | editing starts with the form a copy of the employee |
| ProfilePage.ProfileView.CancelEdit | src/frontend/src/pages/profile/ProfilePage.tsx:114-118 | cancel ends editing, restores the form to the employee and clears the error |
| ProfilePage.ProfileView.FormChange | src/frontend/src/pages/profile/ProfilePage.tsx:156-160 | one form field takes the new value |
| ProfilePage.ProfileView.Save | src/frontend/src/pages/profile/ProfilePage.tsx:121-153 | a rejected save shows its message and keeps the employee; an accepted one merges the form over the employee, stamps the time and ends editing |
| StatusForm.StatusError | src/frontend/src/components/profile/StatusForm.tsx:197 | no error iff the status is active, inactive or terminated; empty gives the required message, any other the invalid one |
| StatusForm.FormErrors | src/frontend/src/components/profile/StatusForm.tsx:167-197 | no errors iff department and position are non-empty and the status is known; department first |
| StatusForm.ResetValues | src/frontend/src/components/profile/StatusForm.tsx:49-59 | the form takes the employee's values; a known status in the form is the stored one |
| StatusForm.CancelledStatusIsSettled | src/frontend/src/components/profile/StatusForm.tsx:93-98 | the status restored by cancel (`status \|\| 'active'`, StatusForm.Or) never asks for confirmation again |
| StatusForm.ResetFormNeedsNoConfirmation | src/frontend/src/components/profile/StatusForm.tsx:49-69 | submitting a freshly reset form never asks for confirmation |
| StatusForm.StatusFormView.constructor | src/frontend/src/components/profile/StatusForm.tsx:31-59 | the form starts on the employee's values, no errors, nothing pending |
| StatusForm.StatusFormView.EmployeeChanged | src/frontend/src/components/profile/StatusForm.tsx:49-59 | a new employee resets the form to its values |
| StatusForm.StatusFormView.Edit | src/frontend/src/components/profile/StatusForm.tsx:167-197 | the form takes the edited values |
| StatusForm.StatusFormView.Submit | src/frontend/src/components/profile/StatusForm.tsx:61-69 | invalid fields show their messages; a termination of a non-terminated employee is held for confirmation; anything else is submitted and closes |
| StatusForm.StatusFormView.ConfirmDeactivation | src/frontend/src/components/profile/StatusForm.tsx:71-86 | the held payload, a termination that passes every rule, is submitted unchanged and cleared, and both dialogs close; with nothing held nothing happens |
| StatusForm.StatusFormView.CancelDeactivation | src/frontend/src/components/profile/StatusForm.tsx:93-98 | nothing is held any more and the status returns to the stored one or "active" |
| StatusForm.StatusFormView.Close | src/frontend/src/components/profile/StatusForm.tsx:88-91 | close resets the form to the employee's values and clears errors |
| HrWorkForm.FormErrors | src/frontend/src/components/profile/ProfileFromEmployeeForHR.tsx:207-238 | no errors iff the department id is positive (DepartmentIdError) and the status is known |
| HrWorkForm.CancelledStatus | src/frontend/src/components/profile/ProfileFromEmployeeForHR.tsx:116-122 | a stored status restored by cancel is never asked about again; with no stored status the fallback "terminated" asks again |
| HrWorkForm.OpenedFormErrors | src/frontend/src/components/profile/ProfileFromEmployeeForHR.tsx:55-64 | the form as reset from a detail (ResetValues) submits cleanly iff it has a positive department and a known or missing status, and stops at the department rule when there is none |
| HrWorkForm.HrWorkFormView.constructor | src/frontend/src/components/profile/ProfileFromEmployeeForHR.tsx:30-34 | a closed form for the id, with nothing pending |
| HrWorkForm.HrWorkFormView.Sync | src/frontend/src/components/profile/ProfileFromEmployeeForHR.tsx:55-64 | called when the detail or the open flag changed; an open form with a detail resets to that detail's values |
| HrWorkForm.HrWorkFormView.Edit | src/frontend/src/components/profile/ProfileFromEmployeeForHR.tsx:224 | the department id and status take the edited values |
| HrWorkForm.HrWorkFormView.Submit | src/frontend/src/components/profile/ProfileFromEmployeeForHR.tsx:77-92 | invalid fields show messages; the payload carries this form's employee id; a termination of a non-terminated employee is held, anything else submitted and closed |
| HrWorkForm.HrWorkFormView.ConfirmDeactivation | src/frontend/src/components/profile/ProfileFromEmployeeForHR.tsx:94-109 | the held payload is submitted as it was, without the dialog's date, and both dialogs close; with nothing held nothing happens |
| HrWorkForm.HrWorkFormView.CancelDeactivation | src/frontend/src/components/profile/ProfileFromEmployeeForHR.tsx:116-122 | nothing is held; status and department id return to the stored values, with fallbacks "terminated" and 0 |
| HrWorkForm.HrWorkFormView.Close | src/frontend/src/components/profile/ProfileFromEmployeeForHR.tsx:111-114 | close restores the last reset values and clears errors |
| ConfirmDialog.TwoDigitsParse | src/frontend/src/components/profile/ConfirmStatusEmployee.tsx:7-8 | a padded number is two digits reading back as the number |
| ConfirmDialog.TodayDateShape | src/frontend/src/components/profile/ConfirmStatusEmployee.tsx:4-10 | year, '-', two-digit month counted from 1, '-', two-digit day |
| ConfirmDialog.ParseDateString | src/frontend/src/components/profile/ConfirmStatusEmployee.tsx:4-10 | a parsed string has the dashes of `YYYY-MM-DD` |
| ConfirmDialog.TodayDateRoundTrip | src/frontend/src/components/profile/ConfirmStatusEmployee.tsx:4-10 | today's string parses back to year, month + 1 and day |
| ConfirmDialog.TodayIsNotBlank | src/frontend/src/components/profile/ConfirmStatusEmployee.tsx:46-56 | today's date is never blank, so confirming it at once submits it |
| ConfirmDialog.ConfirmDialogView.constructor | src/frontend/src/components/profile/ConfirmStatusEmployee.tsx:33-34 | the date starts as today, with no error |
| ConfirmDialog.ConfirmDialogView.SetOpen | src/frontend/src/components/profile/ConfirmStatusEmployee.tsx:37-42 | opening resets the date to today and clears the error; otherwise both are kept |
| ConfirmDialog.ConfirmDialogView.ChangeDate | src/frontend/src/components/profile/ConfirmStatusEmployee.tsx:87-90 | editing sets the date and clears the error |
| ConfirmDialog.ConfirmDialogView.Confirm | src/frontend/src/components/profile/ConfirmStatusEmployee.tsx:46-56 | a blank date sets the required message and submits nothing; any other is submitted exactly as entered |
| Avatar.GetInitials | src/frontend/src/components/common/Avatar.tsx:40-43 | "NV" for an empty name, else the one upper-cased first character |
| Avatar.InitialsStable | src/frontend/src/components/common/Avatar.tsx:40-43 | the initial of an initial is itself |
| Avatar.GetAvatarSrc | src/frontend/src/components/common/Avatar.tsx:46-60 | null iff the source is null or empty; URLs and paths are kept; a bare name is prefixed with the image folder |
| Avatar.FolderPathHasSlash | src/frontend/src/components/common/Avatar.tsx:55-57 | a folder path contains '/' |
| Avatar.AvatarSrcIdempotent | src/frontend/src/components/common/Avatar.tsx:46-60 | a resolved source is a URL or a path, so resolving again keeps it |
| Avatar.FallbackShown | src/frontend/src/components/common/Avatar.tsx:88 | the initials show at first iff there is no image source |
| AppConstants.RoleNamed | src/frontend/src/constants/app.ts:21-26 | a name resolves to a role only if that role has the name |
| AppConstants.RolesAgreeWithDatabase | src/frontend/src/constants/app.ts:21-26 | every role's name reads back as the role; ids are distinct; the employee role is id 4, the service's default |
| AppConstants.MenuKeysDistinct | src/frontend/src/constants/app.ts:150-221 | menu ids and paths are pairwise distinct |
| AppConstants.MenuHasNoBadges | src/frontend/src/constants/app.ts:150-221 | no menu entry carries a badge |
| Sidebar.VisibleItems | src/frontend/src/components/common/Sidebar.tsx:45-47 | the role filter never adds entries |
| Sidebar.VisibleMembership | src/frontend/src/components/common/Sidebar.tsx:45-47 | an entry is visible iff it is on the menu and lists the role |
| Sidebar.VisibleKeepsOrder | src/frontend/src/components/common/Sidebar.tsx:45-47 | visible entries keep the menu's order |
| Sidebar.EmployeeMenu | src/frontend/src/constants/app.ts:150-192 | an employee sees dashboard, profile, requests, activities and rewards |
| Sidebar.ManagerMenu | src/frontend/src/constants/app.ts:150-213 | a manager sees those five, team management and reports |
| Sidebar.HrMenu | src/frontend/src/constants/app.ts:150-213 | HR sees the five, employee management, HR management and reports |
| Sidebar.AdminMenu | src/frontend/src/constants/app.ts:150-221 | an admin sees the five, employee management, reports and settings |
| Sidebar.AtMostOneActive | src/frontend/src/components/common/Sidebar.tsx:111 | at most one visible entry is active for a path |
| Sidebar.ClickedEntryIsActive | src/frontend/src/components/common/Sidebar.tsx:50-111 | after clicking a visible entry (HandleNavigation), that entry is the one active entry |
| Sidebar.BadgeAsWritten | src/frontend/src/components/common/Sidebar.tsx:166-171 | as written: no badge for none or a negative value |
| Sidebar.ZeroBadgeShowsZero | src/frontend/src/components/common/Sidebar.tsx:166 | as written a zero badge renders "0" |
| Sidebar.Badge | src/frontend/src/components/common/Sidebar.tsx:166-171 | a badge shows iff defined and positive; "99+" iff above 99; otherwise its digits |
| Sidebar.BadgeAgreesExceptZero | src/frontend/src/components/common/Sidebar.tsx:166-171 | the two renderings differ only at 0 |
| Sidebar.MenuShowsNoBadge | src/frontend/src/components/common/Sidebar.tsx:166-171 | no visible entry of the current menu shows a badge either way |

## Left out

- Database mechanics: EF Core change tracking, `SaveChangesAsync` and the PostgreSQL connection are out. A save is a pure function on `Store.Db`, and an I/O failure is a `fault` parameter.
- Database transactions: a transaction is a snapshot plus `Rollback`.
- Concurrent creates: two creates that both pass the uniqueness pre-check are concurrency, so the model does not cover them. Their race ends at the unique index, which `Store.InsertEmployee` refuses.
- Table columns: the satellite tables keep only their keys and foreign keys. Their other columns carry no constraint the employee operations touch.
- Clocks and window width: `DateTime.UtcNow`, `new Date()` and `window.innerWidth` are parameters.
- Exception messages: `ex.Message` of framework exceptions is abbreviated to fixed texts (`Service.ExceptionMessage`).
- HTTP and startup: routing attributes, `ModelState` evaluation, Program.cs and logging are out. An invalid model is a list of messages given to `Controller.InvalidModel`, and a 500 from an unexpected exception is modelled only for the paging overflow.
- Network calls: the axios calls and the thunks' network bodies are out. The detail fetch's outcome is a function of the HTTP status and envelope (`EmployeeSlice.DetailOutcome`).
- Employee list fetch: the network call is out. The fetch as written is `EmployeeList.EmployeeListView.FetchAsWritten`, and a fetch with a working list call is `EmployeeList.EmployeeListView.Loaded`, whose page is a parameter. The reload button of the error screen reloads the whole page and is out.
- Text handling: string case mapping, `trim` and `\s` are modelled on the characters listed in `text.dfy`. Upper- and lower-casing map only ASCII letters. `toUpperCase` of letters such as 'ß', which lengthens the string, is not modelled.
- String length: JavaScript measures strings in UTF-16 code units, while the model's strings are sequences of Unicode scalar values. The two agree only on text without characters outside the Basic Multilingual Plane (emoji, for example). The lines below name what this changes.
- ProfileValidation.ValidateProfileData: the name's 2..100 and the address's 500 limits count scalar values. A name of 51 emoji has `.length` 102 and is refused by the source, but the model accepts it.
- ProfilePage.MaskSensitiveInfo: `length` and `slice(-showLength)` count scalar values. On text with such characters, the source's mask can split a surrogate pair.
- Avatar.GetInitials: `charAt(0)` of a name that starts with such a character is a lone surrogate in the source, and the whole character in the model.
- `TotalPages` is exact integer ceiling; the source's double division is not modelled.
- Avatar.GetInitials: upper-cases only ASCII letters.
- Gender rule: `Dtos.ValidGender` states the male/female/other rule of the payload, but no operation applies it. `ModelState` enforces it, and `ModelState` is out.
- CCCD format rule: the payload's twelve-character `^\d{12}$` rule (src/backend_dotnet/HRMApi/Dtos/EmployeeDtos.cs:48-51) is enforced by `ModelState`, which is out. .NET's `\d` also accepts non-ASCII decimal digits, while `Text.IsDigit` knows only '0' to '9', so the model states no CCCD format rule.
- Initial slice state: `EmployeeSlice.InitialState` is a constant with the initial values (empty list, nothing selected, not loading, no errors). No lemma adds to its definition.
- Form state: react-hook-form's per-keystroke validation, focus and touched state are out. Errors are computed on Submit, and the modelled rules are the ones the forms pass to it.
- Numeric department id: a numeric 0 satisfies react-hook-form's `required`, so only the positivity rule of the HR form's department id is modelled.
- StatusForm hooks: StatusForm.tsx calls its hooks after an early `return null` when there is no employee. The model always has an employee.
- HR form fetch effect: its fetch-on-open and clear-on-close effect dispatches store actions, which `EmployeeSlice.Reduce` covers, so the effect itself is out. Its reset effect is `HrWorkForm.HrWorkFormView.Sync`.
- Display-only markup: labels, icons, styles, date formatting with `toLocaleDateString`, and the dialog's rendering are out. A closed dialog renders nothing, so its methods require it to be open.
- Session role type: the role union in the session type lacks "hr". The model uses the `AppConstants.UserRole` datatype with the four roles of `USER_ROLES`.
- Repository.GetPagedAsWritten: the database's refusal of a negative offset is a plain error. The wrapped value is passed on otherwise.
- Store.DeleteEmployee: a delete is refused whenever the employee approved any request, even one of its own requests that the cascade would remove. The order in which the database applies cascade and restrict is not modelled.
- Service.EmployeeService.CreateEmployeeAsync: on a failed save, the identity counters stay advanced, as PostgreSQL sequences are not transactional. The contract states only that they do not decrease.
- Service.GetEmployeeById: the contract states the id and email of the view. The other fields come from `Mappings.ListViewAgreesWithDetailView` and `Mappings.ViewsResolveNames`.

## Findings

| source | as written | input that shows it | evidently intended | confidence | as-written member | corrected member |
|---|---|---|---|---|---|---|
| src/backend_dotnet/HRMApi/Repositories/EmployeeRepository.cs:82 | `(pageNumber - 1) * pageSize` is computed in unchecked 32-bit `int` after the controller's clamp, which bounds only pageSize | pageNumber 21474838, pageSize 100: the offset wraps negative and the query fails with 500; pageNumber 42949674 wraps to offset 4 and returns early rows again | a page past the end is an empty page | not executed | Repository.OffsetOverflows, Repository.GetPagedAsWritten, Repository.WrappedPageRepeatsEarlyRows, Controller.LargePageNumber | Repository.Offset, Repository.GetPaged, Repository.OffsetAgreesWithoutOverflow |
| src/frontend/src/store/employeeSlice.ts:64 | the list fetch defaults to `pageSize \|\| 1000`, which the server replaces with 10 | fetch with no page size: the server returns at most 10 rows | a default the server honours, at most 100 | not executed | EmployeeSlice.FetchParamsAsWritten, EmployeeSlice.DefaultFetchGetsTenRows | EmployeeSlice.FetchParams, EmployeeSlice.DefaultFetchIsHonoured |
| src/frontend/src/components/common/Sidebar.tsx:166 | `item.badge && item.badge > 0 && …` renders the number 0 when the badge is 0 | a menu entry with badge 0 shows "0" | no badge unless positive | not executed | Sidebar.BadgeAsWritten, Sidebar.ZeroBadgeShowsZero | Sidebar.Badge, Sidebar.BadgeAgreesExceptZero |
| src/frontend/src/pages/profile/EmployeeList.tsx:49 | the list fetch calls `employeeService.getAllEmployees`, which employeeService.ts does not define, so the call throws | opening the list page: it shows "Không thể tải danh sách nhân viên" and never the table | a list call that exists, whose page fills the table | not executed | EmployeeList.EmployeeListView.FetchAsWritten | EmployeeList.EmployeeListView.Loaded |
