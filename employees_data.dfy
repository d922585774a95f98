/**
 * The data hook of the dashboard: it fetches the employee list and the five
 * lookup tables, joins rank, position and department names onto every
 * employee, and keeps the joined list, the tables and a loading flag as state.
 */
module EmployeesData {
  import opened Wrappers

  /** An employee as the `GET /employees/` endpoint returns it. */
  datatype RawEmployee = RawEmployee(
    id: int,
    firstName: string,
    surname: string,
    contactNumber: string,
    startDate: string,
    departmentId: int,
    rankId: int,
    divisionId: int,
    positionId: int,
    salaryBandId: int,
    lastUpdated: string)

  /** A rank, position or department: an identifier with a display name. */
  datatype NamedEntry = NamedEntry(id: int, name: string)

  /** The lookup tables; divisions and salary bands carry only identifiers. */
  datatype Meta = Meta(
    divisions: seq<int>,
    ranks: seq<NamedEntry>,
    positions: seq<NamedEntry>,
    departments: seq<NamedEntry>,
    salaryBands: seq<int>)

  const EmptyMeta := Meta([], [], [], [], [])

  /** An employee with its display fields resolved. The raw record is kept
    * whole, as the object spread keeps every field of the fetched record. */
  datatype Enriched = Enriched(
    raw: RawEmployee,
    division: int,
    rank: Option<string>,
    position: Option<string>,
    department: Option<string>,
    salaryBand: int)

  /** `Object.fromEntries(entries.map(r => [r.id, r.name]))`: entries are
    * inserted in order, so a later entry with the same id replaces an earlier one. */
  function NameMap(entries: seq<NamedEntry>): map<int, string>
  {
    if entries == [] then map[]
    else NameMap(entries[..|entries| - 1])[entries[|entries| - 1].id := entries[|entries| - 1].name]
  }

  /** Indexing the map built by `NameMap`; a missing key yields `undefined`. */
  function LookupName(entries: seq<NamedEntry>, id: int): Option<string>
  {
    var m := NameMap(entries);
    if id in m then Some(m[id]) else None
  }

  /** Index `k` holds the last entry of `entries` with identifier `id`. */
  ghost predicate LastWithId(entries: seq<NamedEntry>, id: int, k: int) {
    0 <= k < |entries| && entries[k].id == id
    && forall j :: k < j < |entries| ==> entries[j].id != id
  }

  /** The name found for `id` is that of the last catalog entry carrying `id`,
    * and no name is found exactly when no entry carries `id`. */
  lemma {:induction false} LookupNameSpec(entries: seq<NamedEntry>, id: int)
    ensures LookupName(entries, id).None? <==> forall k :: 0 <= k < |entries| ==> entries[k].id != id
    ensures LookupName(entries, id).Some? ==>
      exists k :: LastWithId(entries, id, k) && entries[k].name == LookupName(entries, id).value
  {
    if entries != [] {
      var n := |entries| - 1;
      var init := entries[..n];
      LookupNameSpec(init, id);
      if entries[n].id == id {
        assert LastWithId(entries, id, n);
      } else if LookupName(init, id).Some? {
        var k :| LastWithId(init, id, k) && init[k].name == LookupName(init, id).value;
        assert LastWithId(entries, id, k);
      } else {
        forall k | 0 <= k < |entries| ensures entries[k].id != id {
          if k < n { assert entries[k] == init[k]; }
        }
      }
    }
  }

  /** The enrichment of one employee against the lookup tables. */
  function Enrich(e: RawEmployee, meta: Meta): Enriched {
    Enriched(
      e,
      e.divisionId,
      LookupName(meta.ranks, e.rankId),
      LookupName(meta.positions, e.positionId),
      LookupName(meta.departments, e.departmentId),
      e.salaryBandId)
  }

  /** `employeeData.map(e => ...)`: one enriched record per raw employee, in order. */
  function EnrichAll(es: seq<RawEmployee>, meta: Meta): (r: seq<Enriched>)
    ensures |r| == |es|
    ensures forall i :: 0 <= i < |es| ==> r[i] == Enrich(es[i], meta)
  {
    if es == [] then [] else [Enrich(es[0], meta)] + EnrichAll(es[1..], meta)
  }

  /** What the join promises for the record at position `i`: the raw employee is
    * carried over, division and salary band are the raw identifiers, and each
    * resolved name is absent exactly when no catalog entry has the foreign key. */
  lemma EnrichAllSpec(es: seq<RawEmployee>, meta: Meta, i: int)
    requires 0 <= i < |es|
    ensures var r := EnrichAll(es, meta)[i];
      && r.raw == es[i]
      && r.division == es[i].divisionId
      && r.salaryBand == es[i].salaryBandId
      && (r.rank.None? <==> forall k :: 0 <= k < |meta.ranks| ==> meta.ranks[k].id != es[i].rankId)
      && (r.position.None? <==> forall k :: 0 <= k < |meta.positions| ==> meta.positions[k].id != es[i].positionId)
      && (r.department.None? <==> forall k :: 0 <= k < |meta.departments| ==> meta.departments[k].id != es[i].departmentId)
      && (r.rank.Some? ==> exists k :: LastWithId(meta.ranks, es[i].rankId, k) && meta.ranks[k].name == r.rank.value)
      && (r.position.Some? ==> exists k :: LastWithId(meta.positions, es[i].positionId, k) && meta.positions[k].name == r.position.value)
      && (r.department.Some? ==> exists k :: LastWithId(meta.departments, es[i].departmentId, k) && meta.departments[k].name == r.department.value)
  {
    LookupNameSpec(meta.ranks, es[i].rankId);
    LookupNameSpec(meta.positions, es[i].positionId);
    LookupNameSpec(meta.departments, es[i].departmentId);
  }

  /** Enrichment commutes with concatenation: re-aggregating a list is the
    * aggregation of its parts, nothing is merged in from an earlier pass. */
  lemma {:induction false} EnrichAllAppend(a: seq<RawEmployee>, b: seq<RawEmployee>, meta: Meta)
    ensures EnrichAll(a + b, meta) == EnrichAll(a, meta) + EnrichAll(b, meta)
  {
    if a != [] {
      assert (a + b)[1..] == a[1..] + b;
      EnrichAllAppend(a[1..], b, meta);
    }
  }

  /** Everything the six fetches and their JSON bodies delivered, when all succeeded. */
  datatype Fetched = Fetched(employees: seq<RawEmployee>, meta: Meta)

  /** The state the hook keeps: the enriched employees, the lookup tables and the loading flag. */
  class EmployeesStore {
    var employees: seq<Enriched>
    var meta: Meta
    var loading: bool

    /** The initial state: nothing fetched yet and loading. */
    constructor ()
      ensures employees == [] && meta == EmptyMeta && loading
    {
      employees := [];
      meta := EmptyMeta;
      loading := true;
    }

    /** `fetchData`: `response` is `None` when any fetch or JSON decoding throws.
      * On success both the employees and the tables are replaced wholesale;
      * on failure both keep their values. Loading ends false either way. */
    method FetchData(response: Option<Fetched>)
      modifies this
      ensures !loading
      ensures response.Some? ==>
        employees == EnrichAll(response.value.employees, response.value.meta) && meta == response.value.meta
      ensures response.None? ==> employees == old(employees) && meta == old(meta)
    {
      loading := true;
      if response.Some? {
        var fetched := response.value;
        employees := EnrichAll(fetched.employees, fetched.meta);
        meta := fetched.meta;
      }
      loading := false;
    }
  }
}
