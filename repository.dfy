/** `EmployeeRepository`: the filtered, offset-paged employee query, the
    "exists, optionally excluding one id" probes, the aggregate counts, and
    the writes that go through the database context. */
module Repository {
  import opened Wrappers
  import opened Text
  import opened Store

  // ---- Lookups ----

  /** `GetByIdAsync` / `GetByIdWithDetailsAsync` (the role and department
      are looked up by the callers that need them). */
  function FindEmployee(db: Db, id: Id): (r: Option<Employee>)
    ensures r.Some? <==> id in db.employees
    ensures r.Some? ==> r.value == db.employees[id]
  {
    if id in db.employees then Some(db.employees[id]) else None
  }

  // ---- The filtered query ----

  /** The optional filters of `GetPagedAsync`. */
  datatype EmployeeQuery = EmployeeQuery(
    searchTerm: Option<string>,
    status: Option<string>,
    departmentId: Option<Id>,
    roleId: Option<Id>)

  /** A blank term matches everyone; otherwise the lowercased term must occur
      in the lowercased name or email, in the phone, or in the CCCD. */
  predicate MatchesSearch(e: Employee, searchTerm: Option<string>) {
    IsNullOrWhiteSpace(searchTerm) ||
    var term := Lower(searchTerm.value);
    Contains(Lower(e.fullname), term) ||
    Contains(Lower(e.email), term) ||
    (e.phone.Some? && Contains(e.phone.value, term)) ||
    Contains(e.cccd, term)
  }

  /** All filters, combined conjunctively. */
  predicate Matches(e: Employee, q: EmployeeQuery) {
    MatchesSearch(e, q.searchTerm) &&
    (IsNullOrWhiteSpace(q.status) || e.status == q.status) &&
    (q.departmentId.None? || e.departmentId == q.departmentId) &&
    (q.roleId.None? || e.roleId == q.roleId.value)
  }

  function MatchingIds(db: Db, q: EmployeeQuery): (r: set<Id>)
    ensures r <= db.employees.Keys
    ensures forall k | k in db.employees :: k in r <==> Matches(db.employees[k], q)
  {
    set k | k in db.employees && Matches(db.employees[k], q)
  }

  /** An employee whose name holds the term, in any letter case, is found. */
  lemma SearchFindsName(e: Employee, term: string, i: int)
    requires !IsNullOrWhiteSpace(Some(term))
    requires OccursAt(Lower(e.fullname), Lower(term), i)
    ensures MatchesSearch(e, Some(term))
  {
  }

  /** A term that starts with a letter that appears nowhere in an employee's
      name, email, phone or CCCD does not find that employee. */
  lemma SearchMissesAbsentLetter(e: Employee, term: string)
    requires !IsNullOrWhiteSpace(Some(term)) && term != []
    requires forall i | 0 <= i < |e.fullname| :: LowerChar(e.fullname[i]) != LowerChar(term[0])
    requires forall i | 0 <= i < |e.email| :: LowerChar(e.email[i]) != LowerChar(term[0])
    requires e.phone.Some? ==> forall i | 0 <= i < |e.phone.value| :: e.phone.value[i] != LowerChar(term[0])
    requires forall i | 0 <= i < |e.cccd| :: e.cccd[i] != LowerChar(term[0])
    ensures !MatchesSearch(e, Some(term))
  {
    var t := Lower(term);
    assert t[0] == LowerChar(term[0]);
    NotContainsWithoutChar(Lower(e.fullname), t);
    NotContainsWithoutChar(Lower(e.email), t);
    NotContainsWithoutChar(e.cccd, t);
    if e.phone.Some? {
      NotContainsWithoutChar(e.phone.value, t);
    }
  }

  // ---- Ordering ----

  /** A set with no element is empty (extensionality, stated so that a
      witness can be drawn from a non-empty set). */
  lemma Inhabited(s: set<Id>)
    ensures (forall y :: y !in s) ==> s == {}
  {
    if forall y :: y !in s {
      assert s <= {};
    }
  }

  lemma {:induction false} MinOf(s: set<Id>) returns (m: Id)
    requires s != {}
    ensures m in s && forall k | k in s :: m <= k
    decreases |s|
  {
    Inhabited(s);
    var x :| x in s;
    if s == {x} {
      m := x;
    } else {
      var m' := MinOf(s - {x});
      m := if x < m' then x else m';
      forall k | k in s ensures m <= k {
        if k != x {
          assert k in s - {x};
        }
      }
    }
  }

  lemma MinExists(s: set<Id>)
    requires s != {}
    ensures exists m :: m in s && forall k | k in s :: m <= k
  {
    var m := MinOf(s);
  }

  function MinId(s: set<Id>): (m: Id)
    requires s != {}
    ensures m in s && forall k | k in s :: m <= k
  {
    MinExists(s);
    var m :| m in s && forall k | k in s :: m <= k;
    m
  }

  predicate Ascending(ids: seq<Id>) {
    forall i, j | 0 <= i < j < |ids| :: ids[i] < ids[j]
  }

  /** `OrderBy(e => e.Id)`: the keys of `s` in ascending order. */
  function SortedIds(s: set<Id>): (r: seq<Id>)
    ensures |r| == |s| && Ascending(r)
    ensures forall i | 0 <= i < |r| :: r[i] in s
    ensures forall k | k in s :: k in r
    decreases |s|
  {
    if s == {} then []
    else
      var m := MinId(s);
      var rest := SortedIds(s - {m});
      assert forall i | 0 <= i < |rest| :: m < rest[i];
      [m] + rest
  }

  // ---- Paging ----

  const Int32Min: int := -0x8000_0000
  const Int32Max: int := 0x7fff_ffff

  predicate IsInt32(x: int) {
    Int32Min <= x <= Int32Max
  }

  /** Unchecked 32-bit signed arithmetic: the value modulo 2^32, in range. */
  function Wrap32(x: int): (r: int)
    ensures IsInt32(r)
    ensures IsInt32(x) ==> r == x
  {
    (x - Int32Min) % 0x1_0000_0000 + Int32Min
  }

  /** `(pageNumber - 1) * pageSize` as the source computes it, in unchecked
      `int` arithmetic. */
  function OffsetAsWritten(pageNumber: int, pageSize: int): int
    requires IsInt32(pageNumber) && IsInt32(pageSize)
  {
    Wrap32(Wrap32(pageNumber - 1) * pageSize)
  }

  /** A page number the controller accepts, with the largest page size it
      accepts, gives a negative offset. */
  lemma OffsetOverflows()
    ensures IsInt32(21474838) && OffsetAsWritten(21474838, 100) < 0
  {
    assert Wrap32(21474837) == 21474837;
    assert Wrap32(2147483700) == -2147483596;
  }

  /** A page number past the first overflow wraps back to a small
      non-negative offset: page 42949674 of 100 rows starts at row 4. */
  lemma OffsetWraps()
    ensures IsInt32(42949674) && OffsetAsWritten(42949674, 100) == 4
  {
    assert Wrap32(42949673) == 42949673;
    assert Wrap32(4294967300) == 4;
  }

  /** `GetPagedAsync` as written: the offset is computed in unchecked `int`
      arithmetic, and PostgreSQL refuses a negative OFFSET. */
  function GetPagedAsWritten(db: Db, pageNumber: int, pageSize: int, q: EmployeeQuery): (r: Result<(seq<Employee>, nat), DbError>)
    requires IsInt32(pageNumber) && IsInt32(pageSize) && pageSize >= 0
    ensures r.Err? <==> OffsetAsWritten(pageNumber, pageSize) < 0
    ensures r.Ok? ==> r.value.1 == |MatchingIds(db, q)| && |r.value.0| <= pageSize
    ensures r.Ok? ==> |r.value.0| == PageLength(r.value.1, OffsetAsWritten(pageNumber, pageSize), pageSize)
    ensures r.Ok? ==>
      var ordered := SortedIds(MatchingIds(db, q));
      forall i | 0 <= i < |r.value.0| ::
        OffsetAsWritten(pageNumber, pageSize) + i < |ordered| &&
        r.value.0[i] == db.employees[ordered[OffsetAsWritten(pageNumber, pageSize) + i]]
  {
    var off := OffsetAsWritten(pageNumber, pageSize);
    if off < 0 then Err(Failure("OFFSET must not be negative"))
    else Ok(PageAt(db, off, pageSize, q))
  }

  /** As written, a page far past the end is not empty: page 42949674 of
      100 rows repeats the matches from the fifth one on, where the intended
      page holds nothing. */
  lemma WrappedPageRepeatsEarlyRows(db: Db, q: EmployeeQuery)
    requires 5 <= |MatchingIds(db, q)| <= 4294967300
    ensures GetPagedAsWritten(db, 42949674, 100, q).Ok?
    ensures |GetPagedAsWritten(db, 42949674, 100, q).value.0| >= 1
    ensures GetPaged(db, 42949674, 100, q).0 == []
  {
    OffsetWraps();
    var ordered := SortedIds(MatchingIds(db, q));
    assert |Slice(ordered, 4, 100)| >= 1;
    PageBeyondEndIsEmpty(db, 42949674, 100, q);
  }

  /** The offset of a page: the rows of the pages before it. */
  function Offset(pageNumber: int, pageSize: int): (r: nat)
    requires pageNumber >= 1 && pageSize >= 0
    ensures r == (pageNumber - 1) * pageSize
  {
    (pageNumber - 1) * pageSize
  }

  /** The two offsets agree whenever the product fits in 32 bits. */
  lemma OffsetAgreesWithoutOverflow(pageNumber: int, pageSize: int)
    requires pageNumber >= 1 && pageSize >= 0 && IsInt32(pageNumber) && IsInt32(pageSize)
    requires (pageNumber - 1) * pageSize <= Int32Max
    ensures OffsetAsWritten(pageNumber, pageSize) == Offset(pageNumber, pageSize)
  {
  }

  /** How many of `total` rows a page of `take` rows starting at row `skip`
      holds: none past the end, else all that remain up to `take`. */
  function PageLength(total: nat, skip: nat, take: nat): nat {
    if skip >= total then 0 else if total - skip < take then total - skip else take
  }

  /** `Skip(skip).Take(take)` on a list. */
  function Slice<T>(xs: seq<T>, skip: nat, take: nat): (r: seq<T>)
    ensures |r| <= take && |r| <= |xs|
    ensures |r| == PageLength(|xs|, skip, take)
    ensures forall i | 0 <= i < |r| :: skip + i < |xs| && r[i] == xs[skip + i]
  {
    if skip >= |xs| then []
    else if |xs| - skip < take then xs[skip..]
    else xs[skip..skip + take]
  }

  function Rows(db: Db, ids: seq<Id>): (r: seq<Employee>)
    requires forall i | 0 <= i < |ids| :: ids[i] in db.employees
    ensures |r| == |ids| && forall i | 0 <= i < |r| :: r[i] == db.employees[ids[i]]
  {
    seq(|ids|, i requires 0 <= i < |ids| => db.employees[ids[i]])
  }

  /** The matching employees in ascending Id order from row `skip` on, at
      most `take` of them, with the number of matches. */
  function PageAt(db: Db, skip: nat, take: nat, q: EmployeeQuery): (r: (seq<Employee>, nat))
    ensures r.1 == |MatchingIds(db, q)|
    ensures |r.0| == PageLength(r.1, skip, take)
    ensures var ordered := SortedIds(MatchingIds(db, q));
      forall i | 0 <= i < |r.0| :: skip + i < |ordered| && r.0[i] == db.employees[ordered[skip + i]]
  {
    var ordered := SortedIds(MatchingIds(db, q));
    (Rows(db, Slice(ordered, skip, take)), |MatchingIds(db, q)|)
  }

  /** `GetPagedAsync`: the total number of matching employees, counted before
      paging, and the page at the given offset of the matching employees in
      ascending Id order. */
  function GetPaged(db: Db, pageNumber: int, pageSize: int, q: EmployeeQuery): (r: (seq<Employee>, nat))
    requires pageNumber >= 1 && pageSize >= 0
    ensures r.1 == |MatchingIds(db, q)|
    ensures |r.0| <= pageSize && |r.0| <= r.1
    ensures |r.0| == PageLength(r.1, Offset(pageNumber, pageSize), pageSize)
    ensures var ordered := SortedIds(MatchingIds(db, q));
      forall i | 0 <= i < |r.0| ::
        Offset(pageNumber, pageSize) + i < |ordered| &&
        r.0[i] == db.employees[ordered[Offset(pageNumber, pageSize) + i]]
  {
    PageAt(db, Offset(pageNumber, pageSize), pageSize, q)
  }

  /** Every row on a page passes the filters, and the rows come in strictly
      ascending Id order. */
  lemma PageRowsMatchInOrder(db: Db, pageNumber: int, pageSize: int, q: EmployeeQuery)
    requires Keyed(db)
    requires pageNumber >= 1 && pageSize >= 0
    ensures var items := GetPaged(db, pageNumber, pageSize, q).0;
      (forall i | 0 <= i < |items| :: items[i].id in db.employees && Matches(items[i], q)) &&
      (forall i, j | 0 <= i < j < |items| :: items[i].id < items[j].id)
  {
    PageAtMatchesInOrder(db, Offset(pageNumber, pageSize), pageSize, q);
  }

  lemma PageAtMatchesInOrder(db: Db, skip: nat, take: nat, q: EmployeeQuery)
    requires Keyed(db)
    ensures var items := PageAt(db, skip, take, q).0;
      (forall i | 0 <= i < |items| :: items[i].id in db.employees && Matches(items[i], q)) &&
      (forall i, j | 0 <= i < j < |items| :: items[i].id < items[j].id)
  {
    var ordered := SortedIds(MatchingIds(db, q));
    var items := PageAt(db, skip, take, q).0;
    forall i | 0 <= i < |items|
      ensures items[i].id == ordered[skip + i]
      ensures items[i].id in db.employees && Matches(items[i], q)
    {
      var k := ordered[skip + i];
      assert k in MatchingIds(db, q) && items[i] == db.employees[k];
    }
    forall i, j | 0 <= i < j < |items| ensures items[i].id < items[j].id {
      assert ordered[skip + i] < ordered[skip + j];
    }
  }

  /** A page that starts past the last match is empty. */
  lemma PageBeyondEndIsEmpty(db: Db, pageNumber: int, pageSize: int, q: EmployeeQuery)
    requires pageNumber >= 1 && pageSize >= 0
    requires Offset(pageNumber, pageSize) >= |MatchingIds(db, q)|
    ensures GetPaged(db, pageNumber, pageSize, q).0 == []
  {
  }

  /** Consecutive slices of an ascending list hold ascending values. */
  lemma ConsecutiveSlices(ordered: seq<Id>, off: nat, size: nat)
    requires Ascending(ordered)
    ensures var a := Slice(ordered, off, size);
      var b := Slice(ordered, off + size, size);
      forall i, j | 0 <= i < |a| && 0 <= j < |b| :: a[i] < b[j]
  {
    var a := Slice(ordered, off, size);
    var b := Slice(ordered, off + size, size);
    forall i, j | 0 <= i < |a| && 0 <= j < |b| ensures a[i] < b[j] {
      assert a[i] == ordered[off + i] && b[j] == ordered[off + size + j];
    }
  }

  /** Consecutive pages of the same query do not share an employee: every
      Id on one page is below every Id on the next. */
  lemma PagesAreDisjoint(db: Db, pageNumber: int, pageSize: int, q: EmployeeQuery)
    requires Keyed(db)
    requires pageNumber >= 1 && pageSize >= 0
    ensures var a := GetPaged(db, pageNumber, pageSize, q).0;
      var b := GetPaged(db, pageNumber + 1, pageSize, q).0;
      forall i, j | 0 <= i < |a| && 0 <= j < |b| :: a[i].id < b[j].id
  {
    var ordered := SortedIds(MatchingIds(db, q));
    var offA := Offset(pageNumber, pageSize);
    var offB := Offset(pageNumber + 1, pageSize);
    assert offB == offA + pageSize;
    var sa := Slice(ordered, offA, pageSize);
    var sb := Slice(ordered, offB, pageSize);
    var a := GetPaged(db, pageNumber, pageSize, q).0;
    var b := GetPaged(db, pageNumber + 1, pageSize, q).0;
    assert a == Rows(db, sa) && b == Rows(db, sb);
    ConsecutiveSlices(ordered, offA, pageSize);
    forall i, j | 0 <= i < |a| && 0 <= j < |b| ensures a[i].id < b[j].id {
      assert a[i].id == sa[i] && b[j].id == sb[j];
    }
  }

  // ---- Existence probes ----

  /** `EmailExistsAsync`. */
  predicate EmailExists(db: Db, email: string, exclude: Option<Id>) {
    exists k | k in db.employees :: db.employees[k].email == email && exclude != Some(k)
  }

  /** `CccdExistsAsync`. */
  predicate CccdExists(db: Db, cccd: string, exclude: Option<Id>) {
    exists k | k in db.employees :: db.employees[k].cccd == cccd && exclude != Some(k)
  }

  /** `TaxCodeExistsAsync`. */
  predicate TaxCodeExists(db: Db, taxCode: string, exclude: Option<Id>) {
    exists k | k in db.employees :: db.employees[k].taxCode == Some(taxCode) && exclude != Some(k)
  }

  /** In a valid database an employee's own email and CCCD exist, and
      excluding that employee leaves no other holder. */
  lemma ProbesSeeOnlyOthers(db: Db, id: Id)
    requires Valid(db) && id in db.employees
    ensures var e := db.employees[id];
      EmailExists(db, e.email, None) && !EmailExists(db, e.email, Some(id)) &&
      CccdExists(db, e.cccd, None) && !CccdExists(db, e.cccd, Some(id))
  {
    var e := db.employees[id];
    assert db.employees[id].email == e.email && db.employees[id].cccd == e.cccd;
  }

  /** A negative probe is what the unique index needs: when neither the
      email nor the CCCD exists, the insert is not refused for either. */
  lemma ProbesGuardInsert(db: Db, e: Employee)
    requires FreshIdentities(db)
    requires !EmailExists(db, e.email, None) && !CccdExists(db, e.cccd, None)
    ensures !EmailInUse(db, e.email, db.nextEmployeeId) && !CccdInUse(db, e.cccd, db.nextEmployeeId)
  {
    forall k | k in db.employees
      ensures db.employees[k].email != e.email && db.employees[k].cccd != e.cccd
    {
      assert None != Some(k);
    }
  }

  /** Tax codes carry no unique index: a valid database may hold two
      employees with the same one. */
  lemma TaxCodeMayRepeat()
    ensures exists db: Db :: Valid(db) && TaxCodeExists(db, "0101", Some(1)) && TaxCodeExists(db, "0101", Some(2))
  {
    var role := Role(1, "employee", None, None);
    var a := Employee(1, "A", "000000000001", Some("0101"), None, None, None, Date(2024, 1, 1),
      Some("active"), None, None, "a@x.vn", 1, None, None, None);
    var b := a.(id := 2, cccd := "000000000002", email := "b@x.vn");
    var staff := map[1 := a, 2 := b];
    assert a.email[0] != b.email[0] && a.cccd[11] != b.cccd[11];
    StaffOnlyValid(map[1 := role], staff, 3);
    var db := StaffOnly(map[1 := role], staff, 3);
    assert TaxCodeExists(db, "0101", Some(1)) by { assert db.employees[2].taxCode == Some("0101"); }
    assert TaxCodeExists(db, "0101", Some(2)) by { assert db.employees[1].taxCode == Some("0101"); }
  }

  // ---- Counts ----

  /** `GetTotalCountAsync`. */
  function TotalCount(db: Db): nat {
    |db.employees|
  }

  function ActiveIds(db: Db): (r: set<Id>)
    ensures forall k :: k in r <==> k in db.employees && db.employees[k].status == Some("active")
  {
    set k | k in db.employees && db.employees[k].status == Some("active")
  }

  /** `GetActiveCountAsync`. */
  function ActiveCount(db: Db): nat {
    |ActiveIds(db)|
  }

  lemma {:induction false} SubsetCard(a: set<Id>, b: set<Id>)
    requires a <= b
    ensures |a| <= |b|
    decreases |b|
  {
    if a != {} {
      Inhabited(a);
      var x :| x in a;
      SubsetCard(a - {x}, b - {x});
    }
  }

  /** Active employees are some of the employees. */
  lemma ActiveAtMostTotal(db: Db)
    ensures ActiveCount(db) <= TotalCount(db)
  {
    SubsetCard(ActiveIds(db), db.employees.Keys);
  }

  /** The number of employees per group key, for the groups that occur:
      `GroupBy(key).ToDictionary(g => g.Key, g => g.Count())`. */
  function GroupCounts(keys: map<Id, string>): (r: map<string, nat>)
    ensures r.Keys == GroupKeys(keys)
    ensures forall g | g in r :: r[g] == |set k | k in keys && keys[k] == g|
  {
    map g | g in GroupKeys(keys) :: |set k | k in keys && keys[k] == g|
  }

  /** The group keys that occur. */
  function GroupKeys(keys: map<Id, string>): set<string> {
    set k | k in keys :: keys[k]
  }

  /** Sum of the values of a count dictionary. */
  ghost function Sum(m: map<string, nat>): nat
    decreases |m|
  {
    if m == map[] then 0
    else
      var g :| g in m;
      m[g] + Sum(m - {g})
  }

  lemma {:induction false} SumRemove(m: map<string, nat>, g: string)
    requires g in m
    ensures Sum(m) == m[g] + Sum(m - {g})
    decreases |m|
  {
    var h :| h in m && Sum(m) == m[h] + Sum(m - {h});
    if h != g {
      SumRemove(m - {h}, g);
      SumRemove(m - {g}, h);
      assert m - {h} - {g} == m - {g} - {h};
    }
  }

  /** The groups partition the rows, so the counts add up to the row count. */
  lemma {:induction false} GroupCountsSum(keys: map<Id, string>)
    ensures Sum(GroupCounts(keys)) == |keys|
    decreases |keys|
  {
    var r := GroupCounts(keys);
    if keys == map[] {
      assert r == map[];
    } else {
      Inhabited(keys.Keys);
      var k0 :| k0 in keys.Keys;
      var g := keys[k0];
      var group := set k | k in keys && keys[k] == g;
      var rest := map k | k in keys && keys[k] != g :: keys[k];
      assert k0 in group && k0 !in rest;
      assert keys.Keys == group + rest.Keys && group * rest.Keys == {};
      assert |keys.Keys| == |group| + |rest.Keys|;
      assert GroupKeys(rest) == GroupKeys(keys) - {g} by {
        forall h | h in GroupKeys(keys) && h != g ensures h in GroupKeys(rest) {
          var k :| k in keys && keys[k] == h;
          assert rest[k] == h;
        }
      }
      forall h | h in GroupKeys(rest)
        ensures (set k | k in rest && rest[k] == h) == (set k | k in keys && keys[k] == h)
      {
      }
      assert r - {g} == GroupCounts(rest);
      SumRemove(r, g);
      GroupCountsSum(rest);
    }
  }

  /** `GetCountByStatusAsync` groups by Status, a null status under "unknown". */
  function StatusKey(e: Employee): string {
    e.status.GetOr("unknown")
  }

  function CountByStatus(db: Db): map<string, nat> {
    GroupCounts(map k | k in db.employees :: StatusKey(db.employees[k]))
  }

  /** `GetCountByDepartmentAsync` groups by department name, an employee
      without a department under "No Department". */
  function DepartmentKey(db: Db, e: Employee): string {
    if e.departmentId.Some? && e.departmentId.value in db.departments
    then db.departments[e.departmentId.value].name
    else "No Department"
  }

  function CountByDepartment(db: Db): map<string, nat> {
    GroupCounts(map k | k in db.employees :: DepartmentKey(db, db.employees[k]))
  }

  lemma CountByStatusSumsToTotal(db: Db)
    ensures Sum(CountByStatus(db)) == TotalCount(db)
  {
    var keys := map k | k in db.employees :: StatusKey(db.employees[k]);
    assert keys.Keys == db.employees.Keys;
    GroupCountsSum(keys);
  }

  lemma CountByDepartmentSumsToTotal(db: Db)
    ensures Sum(CountByDepartment(db)) == TotalCount(db)
  {
    var keys := map k | k in db.employees :: DepartmentKey(db, db.employees[k]);
    assert keys.Keys == db.employees.Keys;
    GroupCountsSum(keys);
  }

  /** The "active" entry of the status dictionary is the active count, and
      it is missing exactly when nobody is active. */
  lemma CountByStatusAgreesWithActive(db: Db)
    ensures "active" in CountByStatus(db) <==> ActiveCount(db) > 0
    ensures "active" in CountByStatus(db) ==> CountByStatus(db)["active"] == ActiveCount(db)
  {
    var keys := map k | k in db.employees :: StatusKey(db.employees[k]);
    assert (set k | k in keys && keys[k] == "active") == ActiveIds(db);
    if ActiveCount(db) > 0 {
      Inhabited(ActiveIds(db));
      var k :| k in ActiveIds(db);
      assert keys[k] == "active";
    }
  }

  // ---- Writes ----

  /** The repository over one database context. Each write is one
      `SaveChangesAsync`; `fault` stands for an I/O failure of that save. */
  class EmployeeRepository {
    const context: HrmDbContext

    constructor(context: HrmDbContext)
      ensures this.context == context
    {
      this.context := context;
    }

    /** `AddAsync`: inserts the row and returns it with its generated Id. */
    method AddAsync(e: Employee, fault: Option<string>) returns (r: Result<Employee, DbError>)
      modifies context
      ensures fault.Some? ==> r == Err(Failure(fault.value)) && context.db == old(context.db)
      ensures fault.None? && InsertEmployee(old(context.db), e).Ok? ==>
        r == Ok(InsertEmployee(old(context.db), e).value.1) &&
        context.db == InsertEmployee(old(context.db), e).value.0
      ensures fault.None? && InsertEmployee(old(context.db), e).Err? ==>
        r == Err(InsertEmployee(old(context.db), e).error) && context.db == old(context.db)
    {
      if fault.Some? {
        return Err(Failure(fault.value));
      }
      match InsertEmployee(context.db, e)
      case Ok((db', row)) =>
        context.db := db';
        r := Ok(row);
      case Err(err) =>
        r := Err(err);
    }

    /** `UpdateAsync`: replaces the stored row with the same Id. */
    method UpdateAsync(e: Employee, fault: Option<string>) returns (r: Result<(), DbError>)
      modifies context
      ensures fault.Some? ==> r == Err(Failure(fault.value)) && context.db == old(context.db)
      ensures fault.None? && UpdateEmployee(old(context.db), e).Ok? ==>
        r.Ok? && context.db == UpdateEmployee(old(context.db), e).value
      ensures fault.None? && UpdateEmployee(old(context.db), e).Err? ==>
        r == Err(UpdateEmployee(old(context.db), e).error) && context.db == old(context.db)
    {
      if fault.Some? {
        return Err(Failure(fault.value));
      }
      match UpdateEmployee(context.db, e)
      case Ok(db') =>
        context.db := db';
        r := Ok(());
      case Err(err) =>
        r := Err(err);
    }

    /** `DeleteAsync`: a missing Id is a no-op; otherwise the row is deleted
        with the configured delete behaviours. */
    method DeleteAsync(id: Id, fault: Option<string>) returns (r: Result<(), DbError>)
      modifies context
      ensures id !in old(context.db.employees) ==> r.Ok? && context.db == old(context.db)
      ensures id in old(context.db.employees) && fault.Some? ==>
        r == Err(Failure(fault.value)) && context.db == old(context.db)
      ensures id in old(context.db.employees) && fault.None? && DeleteEmployee(old(context.db), id).Ok? ==>
        r.Ok? && context.db == DeleteEmployee(old(context.db), id).value
      ensures id in old(context.db.employees) && fault.None? && DeleteEmployee(old(context.db), id).Err? ==>
        r == Err(DeleteEmployee(old(context.db), id).error) && context.db == old(context.db)
    {
      if FindEmployee(context.db, id).None? {
        return Ok(());
      }
      if fault.Some? {
        return Err(Failure(fault.value));
      }
      match DeleteEmployee(context.db, id)
      case Ok(db') =>
        context.db := db';
        r := Ok(());
      case Err(err) =>
        r := Err(err);
    }
  }
}
