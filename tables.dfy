/**
 * The database as the backend sees it: the five catalog tables and the
 * employee table, held by one object whose fields the seeding and ingestion
 * routines update.
 */
module Tables {
  import opened Schemas

  /** A row of `ranks`, `positions` or `departments`. */
  datatype CatalogRow = CatalogRow(id: int, name: string)

  /** A row of `employees`: its generated key and its columns. */
  datatype EmployeeRow = EmployeeRow(id: int, data: EmployeeData)

  /** The three name-keyed catalogs `resolve_fk` looks names up in. */
  datatype Catalogs = Catalogs(ranks: seq<CatalogRow>, positions: seq<CatalogRow>, departments: seq<CatalogRow>)

  /** The key SQLite gives the next inserted row: one more than the largest key. */
  function NextId(ids: seq<int>): (n: int)
    ensures forall i :: 0 <= i < |ids| ==> ids[i] < n
    ensures n >= 1
  {
    if ids == [] then 1
    else
      var m := NextId(ids[..|ids| - 1]);
      if ids[|ids| - 1] >= m then ids[|ids| - 1] + 1 else m
  }

  function CatalogIds(rows: seq<CatalogRow>): seq<int> {
    seq(|rows|, i requires 0 <= i < |rows| => rows[i].id)
  }

  function EmployeeIds(rows: seq<EmployeeRow>): seq<int> {
    seq(|rows|, i requires 0 <= i < |rows| => rows[i].id)
  }

  /** `UniqueConstraint('first_name', 'surname')`. */
  predicate UniqueNames(rows: seq<EmployeeRow>) {
    forall i, j :: 0 <= i < j < |rows| ==>
      (rows[i].data.firstName, rows[i].data.surname) != (rows[j].data.firstName, rows[j].data.surname)
  }

  class Database {
    var divisions: seq<int>
    var salaryBands: seq<int>
    var ranks: seq<CatalogRow>
    var positions: seq<CatalogRow>
    var departments: seq<CatalogRow>
    var employees: seq<EmployeeRow>

    constructor ()
      ensures divisions == [] && salaryBands == [] && ranks == [] && positions == []
      ensures departments == [] && employees == []
    {
      divisions, salaryBands := [], [];
      ranks, positions, departments := [], [], [];
      employees := [];
    }

    function CatalogTables(): Catalogs
      reads this
    {
      Catalogs(ranks, positions, departments)
    }
  }
}
