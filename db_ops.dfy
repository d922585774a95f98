/**
 * Employee ingestion into the database: resolving catalog names to their keys
 * and the upsert of a batch of validated records keyed on (first name,
 * surname), committed as one transaction.
 */
module DbOps {
  import opened Wrappers
  import opened Calendar
  import opened Records
  import opened Schemas
  import opened Tables
  import opened Utils
  import opened Text

  // ---------------------------------------------------------------------------
  // resolve_fk

  /** The catalogs a name is resolved in. */
  datatype FkModel = RankModel | PositionModel | DepartmentModel

  /** `model_class.__name__`. */
  function ModelName(m: FkModel): string {
    match m
    case RankModel => "Rank"
    case PositionModel => "Position"
    case DepartmentModel => "Department"
  }

  function CatalogOf(c: Catalogs, m: FkModel): seq<CatalogRow> {
    match m
    case RankModel => c.ranks
    case PositionModel => c.positions
    case DepartmentModel => c.departments
  }

  /** The text a bound value is compared as against the `name` column. The
    * column has TEXT affinity and a bound parameter has none, so SQLite
    * converts an integer to its decimal text before comparing; a Python
    * bool binds as the integer 1 or 0. NaN binds as NULL and `None` gives
    * `IS NULL`, neither of which matches a stored name; nor does a
    * timestamp here. */
  function SqlText(value: Value): (r: Option<string>)
    ensures value.Str? ==> r == Some(value.s)
    ensures value.Int? ==> r == Some(IntToString(value.i))
    ensures value.Bool? ==> r == Some(if value.b then "1" else "0")
    ensures r.None? <==> value.Stamp? || value.NaN? || value.NoneVal?
  {
    match value
    case Str(t) => Some(t)
    case Int(i) => Some(IntToString(i))
    case Bool(b) => Some(if b then "1" else "0")
    case _ => None
  }

  /** `filter_by(name=value).first()`: the position of the first row, in table
    * order, whose name equals the value's text as `SqlText` gives it, or -1. */
  function FirstNamed(rows: seq<CatalogRow>, value: Value): (r: int)
    ensures -1 <= r < |rows|
    ensures r >= 0 ==> SqlText(value) == Some(rows[r].name) && forall i :: 0 <= i < r ==> SqlText(value) != Some(rows[i].name)
    ensures r == -1 ==> forall i :: 0 <= i < |rows| ==> SqlText(value) != Some(rows[i].name)
  {
    if rows == [] then -1
    else if SqlText(value) == Some(rows[0].name) then 0
    else
      var r := FirstNamed(rows[1..], value);
      if r == -1 then -1 else r + 1
  }

  /** The text of the `ValueError` raised for an unknown name. */
  function NotFoundMessage(m: FkModel, value: Value): string {
    ModelName(m) + " '" + PyStr(value) + "' not found in DB"
  }

  /** `resolve_fk`: the key of the row carrying the name, or the error raised. */
  function ResolveFk(m: FkModel, value: Value, c: Catalogs): Result<int, string> {
    var rows := CatalogOf(c, m);
    var i := FirstNamed(rows, value);
    if i >= 0 then Ok(rows[i].id) else Err(NotFoundMessage(m, value))
  }

  /** The catalogs' `name` columns are declared `unique=True`. */
  predicate UniqueCatalogNames(rows: seq<CatalogRow>) {
    forall i, j :: 0 <= i < j < |rows| ==> rows[i].name != rows[j].name
  }

  /** A key is found iff some row carries the name; when the names are unique
    * it is that row's key; otherwise the error names the model and the value. */
  lemma ResolveFkSpec(m: FkModel, value: Value, c: Catalogs, j: int)
    ensures ResolveFk(m, value, c).Ok? <==>
      exists i | 0 <= i < |CatalogOf(c, m)| :: SqlText(value) == Some(CatalogOf(c, m)[i].name)
    ensures UniqueCatalogNames(CatalogOf(c, m)) && 0 <= j < |CatalogOf(c, m)| && SqlText(value) == Some(CatalogOf(c, m)[j].name) ==>
      ResolveFk(m, value, c) == Ok(CatalogOf(c, m)[j].id)
    ensures ResolveFk(m, value, c).Err? ==> ResolveFk(m, value, c).error == NotFoundMessage(m, value)
  {
    var rows := CatalogOf(c, m);
    var i := FirstNamed(rows, value);
    if UniqueCatalogNames(rows) && 0 <= j < |rows| && SqlText(value) == Some(rows[j].name) {
      assert i >= 0;
      assert rows[i].name == rows[j].name;
    }
  }

  /** An integer cell finds the catalog row named by its decimal text, and
    * `True` finds the row named "1". */
  lemma NumericNameFound(m: FkModel, c: Catalogs, j: int)
    requires 0 <= j < |CatalogOf(c, m)| && UniqueCatalogNames(CatalogOf(c, m))
    ensures CatalogOf(c, m)[j].name == "3" ==> ResolveFk(m, Int(3), c) == Ok(CatalogOf(c, m)[j].id)
    ensures CatalogOf(c, m)[j].name == "1" ==> ResolveFk(m, Bool(true), c) == Ok(CatalogOf(c, m)[j].id)
  {
    assert IntToString(3) == "3";
    ResolveFkSpec(m, Int(3), c, j);
    ResolveFkSpec(m, Bool(true), c, j);
  }

  // ---------------------------------------------------------------------------
  // add_employees_from_records: one record

  predicate Named(d: EmployeeData, first: string, surname: string) {
    d.firstName == first && d.surname == surname
  }

  /** `filter_by(first_name=…, surname=…).first()` over the stored rows: the
    * position of the first row with that name, or -1. */
  function FindEmployee(rows: seq<EmployeeRow>, first: string, surname: string): (r: int)
    ensures -1 <= r < |rows|
    ensures r >= 0 ==> Named(rows[r].data, first, surname)
    ensures r >= 0 ==> forall i :: 0 <= i < r ==> !Named(rows[i].data, first, surname)
    ensures r == -1 ==> forall i :: 0 <= i < |rows| ==> !Named(rows[i].data, first, surname)
  {
    if rows == [] then -1
    else if Named(rows[0].data, first, surname) then 0
    else
      var r := FindEmployee(rows[1..], first, surname);
      if r == -1 then -1 else r + 1
  }

  /** `any(getattr(existing, f) != v for f, v in data.items() if f != "last_updated")`. */
  predicate ColumnsDiffer(stored: EmployeeData, data: EmployeeData) {
    || stored.firstName != data.firstName
    || stored.surname != data.surname
    || stored.divisionId != data.divisionId
    || stored.rankId != data.rankId
    || stored.positionId != data.positionId
    || stored.departmentId != data.departmentId
    || stored.salaryBandId != data.salaryBandId
    || stored.contactNumber != data.contactNumber
    || stored.startDate != data.startDate
  }

  /** Two rows differ outside `last_updated` iff they differ once their
    * `last_updated` values are made equal. */
  lemma ColumnsDifferSpec(stored: EmployeeData, data: EmployeeData)
    ensures ColumnsDiffer(stored, data) <==> stored.(lastUpdated := data.lastUpdated) != data
  {
  }

  /** A validated record replaces a stored row's columns when the row is not
    * newer than the record and some column other than `last_updated` differs. */
  predicate Supersedes(stored: EmployeeData, data: EmployeeData) {
    LessEq(stored.lastUpdated, data.lastUpdated) && ColumnsDiffer(stored, data)
  }

  /** The entries `errors.extend` adds for a record that failed validation. */
  function IssueEntries(row: int, issues: seq<Issue>): (es: seq<ErrorEntry>)
    ensures |es| == |issues|
    ensures forall i :: 0 <= i < |issues| ==> es[i] == ErrorEntry(row, issues[i].field, issues[i].msg, issues[i].kind)
  {
    seq(|issues|, i requires 0 <= i < |issues| => ErrorEntry(row, issues[i].field, issues[i].msg, issues[i].kind))
  }

  /** What `CreateEmployee(...)` gives for one record: the validated data or
    * the list of issues of its `ValidationError`. */
  type Checked = Result<EmployeeData, seq<Issue>>

  /** The state of the loop: the stored rows as modified so far, the new rows
    * (`objects`), the collected error entries and the two counters. */
  datatype Batch = Batch(rows: seq<EmployeeRow>, pending: seq<EmployeeData>, errors: seq<ErrorEntry>, created: nat, updated: nat)

  /** `CreateEmployee(**record, division_id=…, last_updated=…)` raises a
    * `TypeError`, before any validation, when the record has either keyword. */
  predicate KeywordClash(record: Dict) {
    HasKey(record, DivisionIdKey) || HasKey(record, LastUpdatedKey)
  }

  /** The loop body for record number `row` whose validation gave `v`. The
    * lookup sees only the stored rows: new rows are not added before the loop
    * ends. A stored row is overwritten, key apart, when it is not newer than
    * the record and some column other than `last_updated` differs. */
  function Step(b: Batch, row: int, v: Checked): Batch {
    match v
    case Err(issues) => b.(errors := b.errors + IssueEntries(row, issues))
    case Ok(data) =>
      var i := FindEmployee(b.rows, data.firstName, data.surname);
      if i < 0 then b.(pending := b.pending + [data], created := b.created + 1)
      else if Supersedes(b.rows[i].data, data) then
        b.(rows := b.rows[i := EmployeeRow(b.rows[i].id, data)], updated := b.updated + 1)
      else b
  }

  datatype AddError = DuplicateKeyword | UniqueViolation

  /** The validation result of every record, in order. */
  function Validations(records: seq<Dict>, divisionId: int, dt: DateTime): seq<Checked> {
    seq(|records|, i requires 0 <= i < |records| => ValidateEmployee(records[i], divisionId, dt))
  }

  /** The loop over the first `n` records, whose validation results are `vs`,
    * or the error that ended it. */
  function Loop(rows0: seq<EmployeeRow>, records: seq<Dict>, vs: seq<Checked>, n: nat): Result<Batch, AddError>
    requires n <= |records| == |vs|
  {
    if n == 0 then Ok(Batch(rows0, [], [], 0, 0))
    else
      match Loop(rows0, records, vs, n - 1)
      case Err(e) => Err(e)
      case Ok(b) =>
        if KeywordClash(records[n - 1]) then Err(DuplicateKeyword)
        else Ok(Step(b, n - 1, vs[n - 1]))
  }

  /** Two new rows with the same name: the commit breaks the table's
    * `UniqueConstraint('first_name', 'surname')`. */
  predicate NameClash(pending: seq<EmployeeData>) {
    exists i, j | 0 <= i < j < |pending| :: Named(pending[j], pending[i].firstName, pending[i].surname)
  }

  /** The rows `db.add_all(objects)` inserts, each keyed one past the largest
    * key so far. */
  function AppendEmployees(rows: seq<EmployeeRow>, pending: seq<EmployeeData>): (r: seq<EmployeeRow>)
    ensures |r| == |rows| + |pending|
    ensures r[..|rows|] == rows
    ensures forall i :: 0 <= i < |pending| ==> r[|rows| + i].data == pending[i]
    ensures forall i, j :: 0 <= j < i < |r| && |rows| <= i ==> r[j].id < r[i].id
    decreases |pending|
  {
    if pending == [] then rows
    else
      var row := EmployeeRow(NextId(EmployeeIds(rows)), pending[0]);
      assert forall j :: 0 <= j < |rows| ==> rows[j].id == EmployeeIds(rows)[j];
      var next := rows + [row];
      var r := AppendEmployees(next, pending[1..]);
      assert r[..|rows|] == next[..|rows|];
      assert r[|rows|] == next[|rows|];
      r
  }

  /** What the call returns: the two counts and the summarised errors, or the
    * exception it raises. */
  datatype AddOutcome = Added(created: nat, updated: nat, errors: seq<Summary>) | Raised(reason: AddError)

  /** The outcome and the employee table after the loop and the commit. When
    * the call raises nothing is committed. */
  function AddWith(rows0: seq<EmployeeRow>, records: seq<Dict>, vs: seq<Checked>): (AddOutcome, seq<EmployeeRow>)
    requires |records| == |vs|
  {
    match Loop(rows0, records, vs, |records|)
    case Err(e) => (Raised(e), rows0)
    case Ok(b) =>
      if NameClash(b.pending) then (Raised(UniqueViolation), rows0)
      else (Added(b.created, b.updated, Summarize(b.errors, DefaultMaxSamples)), AppendEmployees(b.rows, b.pending))
  }

  /** `add_employees_from_records`: the outcome and the employee table afterwards. */
  function AddEmployees(rows0: seq<EmployeeRow>, records: seq<Dict>, divisionId: int, dt: DateTime): (AddOutcome, seq<EmployeeRow>) {
    AddWith(rows0, records, Validations(records, divisionId, dt))
  }

  /** Every successful validation carries the division and `dt`. */
  ghost predicate Stamped(vs: seq<Checked>, divisionId: int, dt: DateTime) {
    forall i :: 0 <= i < |vs| && vs[i].Ok? ==> vs[i].value.divisionId == divisionId && vs[i].value.lastUpdated == dt
  }

  lemma ValidationsStamped(records: seq<Dict>, divisionId: int, dt: DateTime)
    ensures Stamped(Validations(records, divisionId, dt), divisionId, dt)
  {
    forall i | 0 <= i < |records| {
      ValidEmployeeConstraints(records[i], divisionId, dt);
    }
  }

  // ---------------------------------------------------------------------------
  // Properties of the loop

  /** Once the loop has raised, it stays raised. */
  lemma {:induction false} LoopErrPersists(rows0: seq<EmployeeRow>, records: seq<Dict>, vs: seq<Checked>, n: nat, m: nat)
    requires n <= m <= |records| == |vs| && Loop(rows0, records, vs, n).Err?
    ensures Loop(rows0, records, vs, m) == Loop(rows0, records, vs, n)
    decreases m
  {
    if m > n {
      LoopErrPersists(rows0, records, vs, n, m - 1);
    }
  }

  /** The stored rows keep their keys and names; a row changes only when it
    * was not newer than `dt`, and then it holds the division and `dt`. */
  ghost predicate RowsKept(rows0: seq<EmployeeRow>, rows: seq<EmployeeRow>, divisionId: int, dt: DateTime) {
    && |rows| == |rows0|
    && (forall i :: 0 <= i < |rows0| ==>
          rows[i].id == rows0[i].id && Named(rows[i].data, rows0[i].data.firstName, rows0[i].data.surname))
    && (forall i :: 0 <= i < |rows0| ==>
          rows[i] == rows0[i]
          || (LessEq(rows0[i].data.lastUpdated, dt) && rows[i].data.lastUpdated == dt && rows[i].data.divisionId == divisionId))
  }

  /** Every new row carries the division and `dt`, and no stored row has its name. */
  ghost predicate PendingFresh(rows0: seq<EmployeeRow>, pending: seq<EmployeeData>, divisionId: int, dt: DateTime) {
    forall k :: 0 <= k < |pending| ==>
      && pending[k].divisionId == divisionId && pending[k].lastUpdated == dt
      && forall i :: 0 <= i < |rows0| ==> !Named(rows0[i].data, pending[k].firstName, pending[k].surname)
  }

  lemma StepKeepsRows(rows0: seq<EmployeeRow>, b: Batch, row: int, v: Checked, divisionId: int, dt: DateTime)
    requires RowsKept(rows0, b.rows, divisionId, dt)
    requires v.Ok? ==> v.value.divisionId == divisionId && v.value.lastUpdated == dt
    ensures RowsKept(rows0, Step(b, row, v).rows, divisionId, dt)
  {
    if v.Ok? {
      var data := v.value;
      var i := FindEmployee(b.rows, data.firstName, data.surname);
      if i >= 0 && Supersedes(b.rows[i].data, data) {
        var rows := b.rows[i := EmployeeRow(b.rows[i].id, data)];
        assert Step(b, row, v).rows == rows;
        if b.rows[i] != rows0[i] {
          LessEqTotalOrder(rows0[i].data.lastUpdated, b.rows[i].data.lastUpdated, dt);
        }
      }
    }
  }

  lemma StepKeepsPending(rows0: seq<EmployeeRow>, b: Batch, row: int, v: Checked, divisionId: int, dt: DateTime)
    requires RowsKept(rows0, b.rows, divisionId, dt) && PendingFresh(rows0, b.pending, divisionId, dt)
    requires v.Ok? ==> v.value.divisionId == divisionId && v.value.lastUpdated == dt
    ensures PendingFresh(rows0, Step(b, row, v).pending, divisionId, dt)
  {
    if v.Ok? {
      var data := v.value;
      var i := FindEmployee(b.rows, data.firstName, data.surname);
      if i < 0 {
        assert Step(b, row, v).pending == b.pending + [data];
        forall j | 0 <= j < |rows0| ensures !Named(rows0[j].data, data.firstName, data.surname) {
          assert !Named(b.rows[j].data, data.firstName, data.surname);
        }
      }
    }
  }

  /** The loop keeps the stored rows as `RowsKept` says and only adds fresh new
    * rows; it creates one row per new record and counts at most one change
    * per record. */
  lemma {:induction false} LoopInvariant(rows0: seq<EmployeeRow>, records: seq<Dict>, vs: seq<Checked>, n: nat, divisionId: int, dt: DateTime)
    requires n <= |records| == |vs| && Stamped(vs, divisionId, dt)
    ensures Loop(rows0, records, vs, n).Ok? ==>
      var b := Loop(rows0, records, vs, n).value;
      && RowsKept(rows0, b.rows, divisionId, dt)
      && PendingFresh(rows0, b.pending, divisionId, dt)
      && b.created == |b.pending|
      && b.created + b.updated <= n
  {
    if n > 0 {
      LoopInvariant(rows0, records, vs, n - 1, divisionId, dt);
      var prev := Loop(rows0, records, vs, n - 1);
      if prev.Ok? && !KeywordClash(records[n - 1]) {
        StepKeepsRows(rows0, prev.value, n - 1, vs[n - 1], divisionId, dt);
        StepKeepsPending(rows0, prev.value, n - 1, vs[n - 1], divisionId, dt);
      }
    }
  }

  /** Every collected error entry belongs to an earlier record that failed
    * validation, and is one of that record's issues. */
  lemma {:induction false} LoopErrors(rows0: seq<EmployeeRow>, records: seq<Dict>, vs: seq<Checked>, n: nat, e: ErrorEntry)
    requires n <= |records| == |vs|
    ensures Loop(rows0, records, vs, n).Ok? && e in Loop(rows0, records, vs, n).value.errors ==>
      0 <= e.row < n && vs[e.row].Err? && e in IssueEntries(e.row, vs[e.row].error)
  {
    if n > 0 {
      LoopErrors(rows0, records, vs, n - 1, e);
      var prev := Loop(rows0, records, vs, n - 1);
      if prev.Ok? && !KeywordClash(records[n - 1]) && vs[n - 1].Err? {
        assert Loop(rows0, records, vs, n).value.errors == prev.value.errors + IssueEntries(n - 1, vs[n - 1].error);
      }
    }
  }

  /** A stored row's data once the first `n` validation results have been
    * taken in turn: a record that passed under the row's name and supersedes
    * what the row holds so far replaces it; nothing else touches it. */
  function Latest(d: EmployeeData, vs: seq<Checked>, n: nat): EmployeeData
    requires n <= |vs|
  {
    if n == 0 then d
    else
      var cur := Latest(d, vs, n - 1);
      var v := vs[n - 1];
      if v.Ok? && Named(v.value, d.firstName, d.surname) && Supersedes(cur, v.value) then v.value else cur
  }

  /** Stored row `i` after the first `n` records. The lookup finds only the
    * first row with a name, so a later row with the same name is never
    * touched. */
  function StoredAfter(rows0: seq<EmployeeRow>, vs: seq<Checked>, n: nat, i: nat): EmployeeData
    requires n <= |vs| && i < |rows0|
  {
    if FindEmployee(rows0, rows0[i].data.firstName, rows0[i].data.surname) == i then Latest(rows0[i].data, vs, n)
    else rows0[i].data
  }

  /** A record that passed validation replaces the data of the stored row with
    * its name, as that row stands after the first `n` records. */
  predicate Replaces(rows0: seq<EmployeeRow>, vs: seq<Checked>, n: nat, data: EmployeeData)
    requires n <= |vs|
  {
    var j := FindEmployee(rows0, data.firstName, data.surname);
    j >= 0 && Supersedes(Latest(rows0[j].data, vs, n), data)
  }

  /** The number of records among the first `n` that replaced a stored row's data. */
  function UpdateCount(rows0: seq<EmployeeRow>, vs: seq<Checked>, n: nat): nat
    requires n <= |vs|
  {
    if n == 0 then 0
    else
      var v := vs[n - 1];
      UpdateCount(rows0, vs, n - 1) + (if v.Ok? && Replaces(rows0, vs, n - 1, v.value) then 1 else 0)
  }

  /** The error entries of the records among the first `n` that failed
    * validation: all of each record's issues, record by record. */
  function FailedEntries(vs: seq<Checked>, n: nat): seq<ErrorEntry>
    requires n <= |vs|
  {
    if n == 0 then []
    else FailedEntries(vs, n - 1) + (if vs[n - 1].Err? then IssueEntries(n - 1, vs[n - 1].error) else [])
  }

  /** An entry is collected iff it is one of the issues of an earlier record
    * that failed validation, and the entries come in record order. */
  lemma {:induction false} FailedEntriesMembers(vs: seq<Checked>, n: nat, e: ErrorEntry)
    requires n <= |vs|
    ensures e in FailedEntries(vs, n) <==> 0 <= e.row < n && vs[e.row].Err? && e in IssueEntries(e.row, vs[e.row].error)
    ensures forall i, j :: 0 <= i < j < |FailedEntries(vs, n)| ==> FailedEntries(vs, n)[i].row <= FailedEntries(vs, n)[j].row
  {
    if n > 0 {
      FailedEntriesMembers(vs, n - 1, e);
      FailedEntriesRows(vs, n - 1);
    }
  }

  lemma {:induction false} FailedEntriesRows(vs: seq<Checked>, n: nat)
    requires n <= |vs|
    ensures forall e :: e in FailedEntries(vs, n) ==> 0 <= e.row < n
  {
    if n > 0 {
      FailedEntriesRows(vs, n - 1);
    }
  }

  /** The data a row holds keeps the row's name. */
  lemma {:induction false} LatestNamed(d: EmployeeData, vs: seq<Checked>, n: nat)
    requires n <= |vs|
    ensures Named(Latest(d, vs, n), d.firstName, d.surname)
  {
    if n > 0 {
      LatestNamed(d, vs, n - 1);
    }
  }

  /** The data a row holds is either its own or that of a record that passed
    * under its name, and it never gets older. */
  lemma {:induction false} LatestOrigin(d: EmployeeData, vs: seq<Checked>, n: nat)
    requires n <= |vs|
    ensures Latest(d, vs, n) == d
         || exists k :: 0 <= k < n && vs[k] == Ok(Latest(d, vs, n)) && Named(vs[k].value, d.firstName, d.surname)
    ensures LessEq(d.lastUpdated, Latest(d, vs, n).lastUpdated)
  {
    if n > 0 {
      LatestOrigin(d, vs, n - 1);
      var cur := Latest(d, vs, n - 1);
      LessEqTotalOrder(d.lastUpdated, cur.lastUpdated, Latest(d, vs, n).lastUpdated);
    } else {
      LessEqTotalOrder(d.lastUpdated, d.lastUpdated, d.lastUpdated);
    }
  }

  /** The batch after the first `n` records: each stored row holds what the
    * records with its name left in it, `updated` counts the records that
    * replaced a row's data, and the errors are those of the failed records. */
  ghost predicate Tracks(rows0: seq<EmployeeRow>, vs: seq<Checked>, n: nat, b: Batch)
    requires n <= |vs|
  {
    && b.rows == RowsAfter(rows0, vs, n)
    && b.updated == UpdateCount(rows0, vs, n)
    && b.errors == FailedEntries(vs, n)
  }

  /** The stored rows, each keyed as before and holding `StoredAfter`. */
  ghost function RowsAfter(rows0: seq<EmployeeRow>, vs: seq<Checked>, n: nat): seq<EmployeeRow>
    requires n <= |vs|
  {
    seq(|rows0|, i requires 0 <= i < |rows0| => EmployeeRow(rows0[i].id, StoredAfter(rows0, vs, n, i)))
  }

  /** The stored rows of a tracking batch keep their names. */
  lemma TracksNames(rows0: seq<EmployeeRow>, vs: seq<Checked>, n: nat, b: Batch)
    requires n <= |vs| && Tracks(rows0, vs, n, b)
    ensures forall i :: 0 <= i < |rows0| ==> Named(b.rows[i].data, rows0[i].data.firstName, rows0[i].data.surname)
  {
    forall i | 0 <= i < |rows0| ensures Named(b.rows[i].data, rows0[i].data.firstName, rows0[i].data.surname) {
      LatestNamed(rows0[i].data, vs, n);
    }
  }

  /** The lookup in a tracking batch finds the row it finds among the stored
    * rows, and that row holds what the records so far left in it. */
  lemma TracksLookup(rows0: seq<EmployeeRow>, vs: seq<Checked>, n: nat, b: Batch, data: EmployeeData)
    requires n <= |vs| && Tracks(rows0, vs, n, b)
    ensures var j := FindEmployee(rows0, data.firstName, data.surname);
      && FindEmployee(b.rows, data.firstName, data.surname) == j
      && (j >= 0 ==> b.rows[j] == EmployeeRow(rows0[j].id, Latest(rows0[j].data, vs, n)))
  {
    TracksNames(rows0, vs, n, b);
    FindSameIndex(rows0, b.rows, data.firstName, data.surname);
  }

  /** Stored row `i` after one more record that passed validation. */
  lemma StepRowAt(rows0: seq<EmployeeRow>, b: Batch, vs: seq<Checked>, n: nat, i: nat)
    requires n < |vs| && Tracks(rows0, vs, n, b) && vs[n].Ok? && i < |rows0|
    ensures Step(b, n, vs[n]).rows[i] == EmployeeRow(rows0[i].id, StoredAfter(rows0, vs, n + 1, i))
  {
    var data := vs[n].value;
    TracksLookup(rows0, vs, n, b, data);
    var j := FindEmployee(rows0, data.firstName, data.surname);
    if FindEmployee(rows0, rows0[i].data.firstName, rows0[i].data.surname) == i && Named(data, rows0[i].data.firstName, rows0[i].data.surname) {
      assert j == i;
    }
  }

  /** One more record keeps `Tracks`. */
  lemma StepStored(rows0: seq<EmployeeRow>, b: Batch, vs: seq<Checked>, n: nat)
    requires n < |vs| && Tracks(rows0, vs, n, b)
    ensures Tracks(rows0, vs, n + 1, Step(b, n, vs[n]))
  {
    if vs[n].Ok? {
      TracksLookup(rows0, vs, n, b, vs[n].value);
      var rows := Step(b, n, vs[n]).rows;
      forall i | 0 <= i < |rows0| ensures rows[i] == RowsAfter(rows0, vs, n + 1)[i] {
        StepRowAt(rows0, b, vs, n, i);
      }
      assert rows == RowsAfter(rows0, vs, n + 1);
    }
  }

  /** The loop leaves each stored row holding `StoredAfter`, counts the
    * records that replaced a row's data, and collects the issues of every
    * record that failed validation, in record order. */
  lemma {:induction false} LoopStored(rows0: seq<EmployeeRow>, records: seq<Dict>, vs: seq<Checked>, n: nat)
    requires n <= |records| == |vs|
    ensures Loop(rows0, records, vs, n).Ok? ==> Tracks(rows0, vs, n, Loop(rows0, records, vs, n).value)
  {
    if n == 0 {
      TracksStart(rows0, vs);
    } else {
      LoopStored(rows0, records, vs, n - 1);
      TracksNext(rows0, vs, n - 1, Loop(rows0, records, vs, n - 1), Loop(rows0, records, vs, n), KeywordClash(records[n - 1]));
    }
  }

  /** One pass of the loop body, the record's keywords already checked, keeps
    * `Tracks`. */
  lemma TracksNext(rows0: seq<EmployeeRow>, vs: seq<Checked>, n: nat, prev: Result<Batch, AddError>, next: Result<Batch, AddError>, clash: bool)
    requires n < |vs|
    requires next == match prev
      case Err(e) => Err(e)
      case Ok(b) => if clash then Err(DuplicateKeyword) else Ok(Step(b, n, vs[n]))
    requires prev.Ok? ==> Tracks(rows0, vs, n, prev.value)
    ensures next.Ok? ==> Tracks(rows0, vs, n + 1, next.value)
  {
    if prev.Ok? && !clash {
      StepStored(rows0, prev.value, vs, n);
    }
  }

  /** Before any record, the batch holds the stored rows as they were. */
  lemma TracksStart(rows0: seq<EmployeeRow>, vs: seq<Checked>)
    ensures Tracks(rows0, vs, 0, Batch(rows0, [], [], 0, 0))
  {
  }

  // ---------------------------------------------------------------------------
  // Properties of the call

  /** The new rows of the loop are exactly the records that passed validation
    * and whose name is not a stored name, in record order. */
  function FreshRecords(rows0: seq<EmployeeRow>, vs: seq<Checked>, n: nat): seq<EmployeeData>
    requires n <= |vs|
  {
    if n == 0 then []
    else
      var v := vs[n - 1];
      FreshRecords(rows0, vs, n - 1)
        + (if v.Ok? && FindEmployee(rows0, v.value.firstName, v.value.surname) < 0 then [v.value] else [])
  }

  /** Looking a name up finds the same position in two tables that hold the
    * same names in the same places. */
  lemma FindSameIndex(rows0: seq<EmployeeRow>, rows: seq<EmployeeRow>, first: string, surname: string)
    requires |rows| == |rows0|
    requires forall i :: 0 <= i < |rows0| ==> Named(rows[i].data, rows0[i].data.firstName, rows0[i].data.surname)
    ensures FindEmployee(rows, first, surname) == FindEmployee(rows0, first, surname)
  {
    var a, b := FindEmployee(rows, first, surname), FindEmployee(rows0, first, surname);
    if a >= 0 {
      assert Named(rows0[a].data, first, surname);
    }
    if b >= 0 {
      assert Named(rows[b].data, first, surname);
    }
  }

  lemma {:induction false} LoopPending(rows0: seq<EmployeeRow>, records: seq<Dict>, vs: seq<Checked>, n: nat, divisionId: int, dt: DateTime)
    requires n <= |records| == |vs| && Stamped(vs, divisionId, dt)
    ensures Loop(rows0, records, vs, n).Ok? ==> Loop(rows0, records, vs, n).value.pending == FreshRecords(rows0, vs, n)
  {
    if n > 0 {
      LoopPending(rows0, records, vs, n - 1, divisionId, dt);
      LoopInvariant(rows0, records, vs, n - 1, divisionId, dt);
      var prev := Loop(rows0, records, vs, n - 1);
      if prev.Ok? && !KeywordClash(records[n - 1]) && vs[n - 1].Ok? {
        var data := vs[n - 1].value;
        FindSameIndex(rows0, prev.value.rows, data.firstName, data.surname);
      }
    }
  }

  lemma {:induction false} FreshRecordsPrefix(rows0: seq<EmployeeRow>, vs: seq<Checked>, m: nat, n: nat)
    requires m <= n <= |vs|
    ensures FreshRecords(rows0, vs, m) <= FreshRecords(rows0, vs, n)
    decreases n
  {
    if m < n {
      FreshRecordsPrefix(rows0, vs, m, n - 1);
    }
  }

  /** A record that passed validation under a name not stored has its new row
    * at the position given by the fresh records before it. */
  lemma FreshRecordAt(rows0: seq<EmployeeRow>, vs: seq<Checked>, k: nat, n: nat)
    requires k < n <= |vs| && vs[k].Ok? && FindEmployee(rows0, vs[k].value.firstName, vs[k].value.surname) < 0
    ensures |FreshRecords(rows0, vs, k)| < |FreshRecords(rows0, vs, n)|
    ensures FreshRecords(rows0, vs, n)[|FreshRecords(rows0, vs, k)|] == vs[k].value
  {
    FreshRecordsPrefix(rows0, vs, k + 1, n);
    assert FreshRecords(rows0, vs, k + 1) == FreshRecords(rows0, vs, k) + [vs[k].value];
  }

  /** At most one row is created or updated per record, and the table grows
    * by exactly the number created. */
  lemma AddCounts(rows0: seq<EmployeeRow>, records: seq<Dict>, divisionId: int, dt: DateTime)
    ensures var (out, rows) := AddEmployees(rows0, records, divisionId, dt);
      out.Added? ==> out.created + out.updated <= |records| && |rows| == |rows0| + out.created
  {
    ValidationsStamped(records, divisionId, dt);
    LoopInvariant(rows0, records, Validations(records, divisionId, dt), |records|, divisionId, dt);
  }

  /** A raised call leaves the table as it was. Otherwise every stored row
    * keeps its key and its name, and a stored row changes only when its
    * `last_updated` is not later than `dt`, and then it is stamped with the
    * division and `dt`. */
  lemma AddKeepsStoredRows(rows0: seq<EmployeeRow>, records: seq<Dict>, divisionId: int, dt: DateTime)
    ensures var (out, rows) := AddEmployees(rows0, records, divisionId, dt);
      && (out.Raised? ==> rows == rows0)
      && (out.Added? ==> |rows0| <= |rows| && RowsKept(rows0, rows[..|rows0|], divisionId, dt))
  {
    ValidationsStamped(records, divisionId, dt);
    LoopInvariant(rows0, records, Validations(records, divisionId, dt), |records|, divisionId, dt);
  }

  /** After a call that raised nothing, each stored row keeps its key and
    * holds what the records with its name left in it; `updated` counts the
    * records that replaced a stored row's data; and the summary is that of
    * every issue of every record that failed validation, in record order. */
  lemma AddWithStored(rows0: seq<EmployeeRow>, records: seq<Dict>, vs: seq<Checked>)
    requires |records| == |vs|
    ensures var (out, rows) := AddWith(rows0, records, vs);
      out.Added? ==>
        && |rows0| <= |rows|
        && (forall i :: 0 <= i < |rows0| ==> rows[i] == EmployeeRow(rows0[i].id, StoredAfter(rows0, vs, |records|, i)))
        && out.updated == UpdateCount(rows0, vs, |records|)
        && out.errors == Summarize(FailedEntries(vs, |records|), DefaultMaxSamples)
  {
    LoopStored(rows0, records, vs, |records|);
    var loop := Loop(rows0, records, vs, |records|);
    if loop.Ok? && !NameClash(loop.value.pending) {
      var rows := AppendEmployees(loop.value.rows, loop.value.pending);
      forall i | 0 <= i < |rows0| ensures rows[i] == loop.value.rows[i] {
        assert rows[..|rows0|][i] == rows[i];
      }
    }
  }

  lemma AddStoredRows(rows0: seq<EmployeeRow>, records: seq<Dict>, divisionId: int, dt: DateTime)
    ensures var (out, rows) := AddEmployees(rows0, records, divisionId, dt);
      var vs := Validations(records, divisionId, dt);
      out.Added? ==>
        && |rows0| <= |rows|
        && (forall i :: 0 <= i < |rows0| ==> rows[i] == EmployeeRow(rows0[i].id, StoredAfter(rows0, vs, |records|, i)))
        && out.updated == UpdateCount(rows0, vs, |records|)
        && out.errors == Summarize(FailedEntries(vs, |records|), DefaultMaxSamples)
  {
    AddWithStored(rows0, records, Validations(records, divisionId, dt));
  }

  /** The added rows are the records that passed validation under a name not
    * stored before the call, in record order, stamped with the division and
    * `dt`, each keyed above every row before it. */
  lemma AddWithNewRows(rows0: seq<EmployeeRow>, records: seq<Dict>, vs: seq<Checked>, divisionId: int, dt: DateTime)
    requires |records| == |vs| && Stamped(vs, divisionId, dt)
    ensures var (out, rows) := AddWith(rows0, records, vs);
      var news := FreshRecords(rows0, vs, |records|);
      out.Added? ==>
        && |rows| == |rows0| + |news|
        && (forall k :: 0 <= k < |news| ==> rows[|rows0| + k].data == news[k])
        && PendingFresh(rows0, news, divisionId, dt)
        && (forall i, j :: 0 <= j < i < |rows| && |rows0| <= i ==> rows[j].id < rows[i].id)
  {
    LoopInvariant(rows0, records, vs, |records|, divisionId, dt);
    LoopPending(rows0, records, vs, |records|, divisionId, dt);
    var loop := Loop(rows0, records, vs, |records|);
    if loop.Ok? {
      AppendedRows(rows0, loop.value.rows, loop.value.pending);
    }
  }

  /** Appending to a table as long as the stored one puts each new row after
    * the stored rows, keyed above every row before it. */
  lemma AppendedRows(rows0: seq<EmployeeRow>, rows: seq<EmployeeRow>, pending: seq<EmployeeData>)
    requires |rows| == |rows0|
    ensures var r := AppendEmployees(rows, pending);
      && |r| == |rows0| + |pending|
      && (forall k :: 0 <= k < |pending| ==> r[|rows0| + k].data == pending[k])
      && (forall i, j :: 0 <= j < i < |r| && |rows0| <= i ==> r[j].id < r[i].id)
  {
  }

  lemma AddNewRows(rows0: seq<EmployeeRow>, records: seq<Dict>, divisionId: int, dt: DateTime)
    ensures var (out, rows) := AddEmployees(rows0, records, divisionId, dt);
      var news := FreshRecords(rows0, Validations(records, divisionId, dt), |records|);
      out.Added? ==>
        && |rows| == |rows0| + |news|
        && (forall k :: 0 <= k < |news| ==> rows[|rows0| + k].data == news[k])
        && PendingFresh(rows0, news, divisionId, dt)
        && (forall i, j :: 0 <= j < i < |rows| && |rows0| <= i ==> rows[j].id < rows[i].id)
  {
    ValidationsStamped(records, divisionId, dt);
    AddWithNewRows(rows0, records, Validations(records, divisionId, dt), divisionId, dt);
  }

  /** The call keeps the table's names unique. */
  lemma AddWithUniqueNames(rows0: seq<EmployeeRow>, records: seq<Dict>, vs: seq<Checked>, divisionId: int, dt: DateTime)
    requires |records| == |vs| && Stamped(vs, divisionId, dt) && UniqueNames(rows0)
    ensures UniqueNames(AddWith(rows0, records, vs).1)
  {
    LoopInvariant(rows0, records, vs, |records|, divisionId, dt);
    var loop := Loop(rows0, records, vs, |records|);
    if loop.Ok? && !NameClash(loop.value.pending) {
      var b := loop.value;
      var rows := AppendEmployees(b.rows, b.pending);
      forall i, j | 0 <= i < j < |rows|
        ensures (rows[i].data.firstName, rows[i].data.surname) != (rows[j].data.firstName, rows[j].data.surname)
      {
        if j < |rows0| {
          assert rows[i] == b.rows[i] && rows[j] == b.rows[j];
        } else if i < |rows0| {
          assert rows[i] == b.rows[i];
          assert rows[j].data == b.pending[j - |rows0|];
        } else {
          assert rows[i].data == b.pending[i - |rows0|];
          assert rows[j].data == b.pending[j - |rows0|];
        }
      }
    }
  }

  lemma AddPreservesUniqueNames(rows0: seq<EmployeeRow>, records: seq<Dict>, divisionId: int, dt: DateTime)
    requires UniqueNames(rows0)
    ensures UniqueNames(AddEmployees(rows0, records, divisionId, dt).1)
  {
    ValidationsStamped(records, divisionId, dt);
    AddWithUniqueNames(rows0, records, Validations(records, divisionId, dt), divisionId, dt);
  }

  /** Two records that pass validation under the same name, not stored before
    * the call, make the call raise: nothing is stored. */
  lemma AddWithRepeatedRaises(rows0: seq<EmployeeRow>, records: seq<Dict>, vs: seq<Checked>, divisionId: int, dt: DateTime, i: nat, j: nat)
    requires i < j < |records| == |vs| && Stamped(vs, divisionId, dt)
    requires vs[i].Ok? && vs[j].Ok? && Named(vs[j].value, vs[i].value.firstName, vs[i].value.surname)
    requires forall k :: 0 <= k < |rows0| ==> !Named(rows0[k].data, vs[i].value.firstName, vs[i].value.surname)
    ensures AddWith(rows0, records, vs) == (Raised(UniqueViolation), rows0)
         || AddWith(rows0, records, vs) == (Raised(DuplicateKeyword), rows0)
  {
    LoopPending(rows0, records, vs, |records|, divisionId, dt);
    var loop := Loop(rows0, records, vs, |records|);
    if loop.Ok? {
      FreshRecordAt(rows0, vs, i, |records|);
      FreshRecordAt(rows0, vs, j, |records|);
      FreshRecordAt(rows0, vs, i, j);
      var p, q := |FreshRecords(rows0, vs, i)|, |FreshRecords(rows0, vs, j)|;
      assert Named(loop.value.pending[q], loop.value.pending[p].firstName, loop.value.pending[p].surname);
      assert NameClash(loop.value.pending);
    } else {
      LoopErrIsKeyword(rows0, records, vs, |records|);
    }
  }

  lemma RepeatedNewRecordRaises(rows0: seq<EmployeeRow>, records: seq<Dict>, divisionId: int, dt: DateTime, i: nat, j: nat)
    requires i < j < |records|
    requires ValidateEmployee(records[i], divisionId, dt).Ok? && ValidateEmployee(records[j], divisionId, dt).Ok?
    requires var a, b := ValidateEmployee(records[i], divisionId, dt).value, ValidateEmployee(records[j], divisionId, dt).value;
      Named(b, a.firstName, a.surname) && forall k :: 0 <= k < |rows0| ==> !Named(rows0[k].data, a.firstName, a.surname)
    ensures AddEmployees(rows0, records, divisionId, dt) == (Raised(UniqueViolation), rows0)
         || AddEmployees(rows0, records, divisionId, dt) == (Raised(DuplicateKeyword), rows0)
  {
    ValidationsStamped(records, divisionId, dt);
    AddWithRepeatedRaises(rows0, records, Validations(records, divisionId, dt), divisionId, dt, i, j);
  }

  /** The only error the loop itself raises is the keyword clash. */
  lemma {:induction false} LoopErrIsKeyword(rows0: seq<EmployeeRow>, records: seq<Dict>, vs: seq<Checked>, n: nat)
    requires n <= |records| == |vs|
    ensures Loop(rows0, records, vs, n).Err? ==> Loop(rows0, records, vs, n).error == DuplicateKeyword
  {
    if n > 0 {
      LoopErrIsKeyword(rows0, records, vs, n - 1);
    }
  }

  /** The loop raises iff one of the records it reached carries a keyword. */
  lemma {:induction false} LoopRaisesIff(rows0: seq<EmployeeRow>, records: seq<Dict>, vs: seq<Checked>, n: nat)
    requires n <= |records| == |vs|
    ensures Loop(rows0, records, vs, n).Err? <==> exists k :: 0 <= k < n && KeywordClash(records[k])
  {
    if n > 0 {
      LoopRaisesIff(rows0, records, vs, n - 1);
    }
  }

  /** The call raises exactly when a record carries a keyword or two new
    * records share a name. */
  lemma AddWithRaisesIff(rows0: seq<EmployeeRow>, records: seq<Dict>, vs: seq<Checked>, divisionId: int, dt: DateTime)
    requires |records| == |vs| && Stamped(vs, divisionId, dt)
    ensures AddWith(rows0, records, vs).0.Raised? <==>
      (exists k :: 0 <= k < |records| && KeywordClash(records[k])) || NameClash(FreshRecords(rows0, vs, |records|))
  {
    LoopRaisesIff(rows0, records, vs, |records|);
    LoopPending(rows0, records, vs, |records|, divisionId, dt);
  }

  lemma AddRaisesIff(rows0: seq<EmployeeRow>, records: seq<Dict>, divisionId: int, dt: DateTime)
    ensures AddEmployees(rows0, records, divisionId, dt).0.Raised? <==>
      || (exists k :: 0 <= k < |records| && KeywordClash(records[k]))
      || NameClash(FreshRecords(rows0, Validations(records, divisionId, dt), |records|))
  {
    ValidationsStamped(records, divisionId, dt);
    AddWithRaisesIff(rows0, records, Validations(records, divisionId, dt), divisionId, dt);
  }

  /** A record carrying the `division_id` or `last_updated` key makes the
    * call raise, leaving the table as it was. */
  lemma KeywordRecordRaises(rows0: seq<EmployeeRow>, records: seq<Dict>, divisionId: int, dt: DateTime, k: nat)
    requires k < |records| && KeywordClash(records[k])
    ensures AddEmployees(rows0, records, divisionId, dt) == (Raised(DuplicateKeyword), rows0)
  {
    var vs := Validations(records, divisionId, dt);
    assert Loop(rows0, records, vs, k + 1).Err?;
    LoopErrPersists(rows0, records, vs, k + 1, |records|);
    LoopErrIsKeyword(rows0, records, vs, |records|);
  }

  // ---------------------------------------------------------------------------
  // The session

  lemma ValidationsAt(records: seq<Dict>, divisionId: int, dt: DateTime, i: nat)
    requires i < |records|
    ensures Validations(records, divisionId, dt)[i] == ValidateEmployee(records[i], divisionId, dt)
  {
  }

  /** One more record, when the loop has not raised and the record carries
    * neither keyword, is one more `Step`. */
  lemma LoopStep(rows0: seq<EmployeeRow>, records: seq<Dict>, vs: seq<Checked>, n: nat)
    requires n < |records| == |vs| && Loop(rows0, records, vs, n).Ok? && !KeywordClash(records[n])
    ensures Loop(rows0, records, vs, n + 1) == Ok(Step(Loop(rows0, records, vs, n).value, n, vs[n]))
  {
  }

  /** The body of the loop for record number `row`, whose validation gave `v`. */
  method ApplyRecord(rows: seq<EmployeeRow>, objects: seq<EmployeeData>, errors: seq<ErrorEntry>, created: nat, updated: nat, row: int, v: Checked)
    returns (rows': seq<EmployeeRow>, objects': seq<EmployeeData>, errors': seq<ErrorEntry>, created': nat, updated': nat)
    ensures Batch(rows', objects', errors', created', updated') == Step(Batch(rows, objects, errors, created, updated), row, v)
  {
    rows', objects', errors', created', updated' := rows, objects, errors, created, updated;
    match v {
      case Err(issues) =>
        errors' := errors + IssueEntries(row, issues);
      case Ok(data) =>
        var i := FindEmployee(rows, data.firstName, data.surname);
        if i >= 0 {
          if LessEq(rows[i].data.lastUpdated, data.lastUpdated) {
            if ColumnsDiffer(rows[i].data, data) {
              rows' := rows[i := EmployeeRow(rows[i].id, data)];
              updated' := updated + 1;
            }
          }
        } else {
          objects' := objects + [data];
          created' := created + 1;
        }
    }
  }

  /** `add_employees_from_records` against the database: the loop works on the
    * session's copy of the employee table, and the commit stores it. */
  method AddEmployeesFromRecords(db: Database, records: seq<Dict>, divisionId: int, dt: DateTime) returns (outcome: AddOutcome)
    modifies db
    ensures (outcome, db.employees) == AddEmployees(old(db.employees), records, divisionId, dt)
    ensures db.divisions == old(db.divisions) && db.salaryBands == old(db.salaryBands)
    ensures db.CatalogTables() == old(db.CatalogTables())
  {
    ghost var vs := Validations(records, divisionId, dt);
    var rows0 := db.employees;
    var rows := rows0;
    var objects: seq<EmployeeData> := [];
    var errors: seq<ErrorEntry> := [];
    var created, updated := 0, 0;
    var idx := 0;
    while idx < |records|
      invariant 0 <= idx <= |records|
      invariant unchanged(db)
      invariant Loop(rows0, records, vs, idx) == Ok(Batch(rows, objects, errors, created, updated))
    {
      var record := records[idx];
      if KeywordClash(record) {
        LoopErrPersists(rows0, records, vs, idx + 1, |records|);
        return Raised(DuplicateKeyword);
      }
      var v := ValidateEmployee(record, divisionId, dt);
      ValidationsAt(records, divisionId, dt, idx);
      LoopStep(rows0, records, vs, idx);
      rows, objects, errors, created, updated := ApplyRecord(rows, objects, errors, created, updated, idx, v);
      idx := idx + 1;
    }
    if NameClash(objects) {
      return Raised(UniqueViolation);
    }
    var summary := SummarizeErrors(errors, DefaultMaxSamples);
    db.employees := AppendEmployees(rows, objects);
    outcome := Added(created, updated, summary);
  }
}
