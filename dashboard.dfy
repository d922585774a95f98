/**
 * The dashboard route: the composite search/filter over the enriched
 * employees and the batch delete that re-fetches and re-enriches the list.
 */
module Dashboard {
  import opened Wrappers
  import opened Text
  import opened EmployeesData
  import opened Seqs
  import EmployeeTable

  /** The five filter dropdowns; the empty string is the "All" option. */
  datatype Filters = Filters(
    division: string,
    rank: string,
    position: string,
    department: string,
    salaryBand: string)

  const NoFilters := Filters("", "", "", "", "")

  /** `String(v)` of an enriched name: `undefined` renders as "undefined". */
  function DisplayText(v: Option<string>): string {
    match v
    case Some(s) => s
    case None => "undefined"
  }

  /** The eight values the free-text search looks in, before lower-casing.
    * `localeDate` stands for `new Date(d).toLocaleDateString('en-GB')`. */
  function SearchFields(e: Enriched, localeDate: string -> string): (r: seq<string>)
    ensures |r| == 8
  {
    [ e.raw.firstName + " " + e.raw.surname,
      localeDate(e.raw.startDate),
      DisplayText(e.rank),
      DisplayText(e.position),
      DisplayText(e.department),
      IntToString(e.raw.divisionId),
      IntToString(e.raw.salaryBandId),
      e.raw.contactNumber ]
  }

  /** The trimmed query starts with '#'. */
  predicate IsIdSearch(query: string) {
    var c := JsTrim(query);
    |c| > 0 && c[0] == '#'
  }

  /** `qClean.replace('#', '').toLowerCase()`. */
  function SearchTerm(query: string): string {
    Lower(RemoveFirst(JsTrim(query), '#'))
  }

  /** `matchesSearch` of the filter callback. */
  predicate MatchesSearch(e: Enriched, query: string, localeDate: string -> string) {
    var q := SearchTerm(query);
    if IsIdSearch(query) then IntToString(e.raw.id) == q
    else exists k | 0 <= k < 8 :: Contains(Lower(SearchFields(e, localeDate)[k]), q)
  }

  /** `matchesFilters`: an empty filter value is no constraint; names are
    * compared with the enriched names, division and salary band with the
    * decimal text of the raw identifiers. */
  predicate MatchesFilters(e: Enriched, f: Filters) {
    && (f.rank == "" || e.rank == Some(f.rank))
    && (f.position == "" || e.position == Some(f.position))
    && (f.department == "" || e.department == Some(f.department))
    && (f.division == "" || IntToString(e.raw.divisionId) == f.division)
    && (f.salaryBand == "" || IntToString(e.raw.salaryBandId) == f.salaryBand)
  }

  predicate Keep(e: Enriched, query: string, f: Filters, localeDate: string -> string) {
    MatchesSearch(e, query, localeDate) && MatchesFilters(e, f)
  }

  /** The callback given to `employees.filter`. */
  function KeepTest(query: string, f: Filters, localeDate: string -> string): Enriched -> bool {
    e => Keep(e, query, f, localeDate)
  }

  /** `filteredEmployees`: `employees.filter(...)`. */
  function FilteredEmployees(es: seq<Enriched>, query: string, f: Filters, localeDate: string -> string): seq<Enriched> {
    Filter(es, KeepTest(query, f, localeDate))
  }

  /** The filtered list is exactly the employees that match the search and all
    * five filters, in their original order: `idx` lists their positions,
    * strictly increasing, and a position is listed iff its employee is kept. */
  lemma FilteredIsOrderedSubsequence(es: seq<Enriched>, query: string, f: Filters, localeDate: string -> string)
    ensures var r := FilteredEmployees(es, query, f, localeDate);
      var idx := Positions(es, KeepTest(query, f, localeDate));
      && |idx| == |r|
      && (forall k :: 0 <= k < |idx| ==> 0 <= idx[k] < |es| && r[k] == es[idx[k]])
      && (forall k, l :: 0 <= k < l < |idx| ==> idx[k] < idx[l])
      && (forall j :: 0 <= j < |es| ==> (Keep(es[j], query, f, localeDate) <==> j in idx))
  {
    var p := KeepTest(query, f, localeDate);
    var idx := Positions(es, p);
    FilterAtPositions(es, p, 0);
    forall k | 0 <= k < |idx| ensures Filter(es, p)[k] == es[idx[k]] {
      FilterAtPositions(es, p, k);
    }
    forall j | 0 <= j < |es| ensures Keep(es[j], query, f, localeDate) <==> j in idx {
      PositionsComplete(es, p, j);
    }
  }

  /** Filter conjunction: an employee is in the result iff it is in the input
    * and matches the search and all five filters. */
  lemma FilteredMembership(es: seq<Enriched>, query: string, f: Filters, localeDate: string -> string, e: Enriched)
    ensures e in FilteredEmployees(es, query, f, localeDate) <==>
      e in es && MatchesSearch(e, query, localeDate) && MatchesFilters(e, f)
  {
    FilterMembership(es, KeepTest(query, f, localeDate), e);
  }

  /** With all filters at "All", a filter value imposes nothing. */
  lemma NoFiltersMatchAll(e: Enriched)
    ensures MatchesFilters(e, NoFilters)
  {
  }

  /** An empty (all-blank) query matches every employee. */
  lemma {:induction false} EmptyQueryMatchesAll(e: Enriched, query: string, localeDate: string -> string)
    requires JsTrim(query) == ""
    ensures MatchesSearch(e, query, localeDate)
  {
    assert SearchTerm(query) == "";
    ContainsEmpty(Lower(SearchFields(e, localeDate)[0]));
  }

  /** An identifier search is an exact comparison: "#n" matches the employee
    * whose id is n and no other, so "#7" matches 7 but neither 17 nor 70. */
  lemma IdSearchExact(e: Enriched, n: int, localeDate: string -> string)
    requires n >= 0
    ensures MatchesSearch(e, "#" + IntToString(n), localeDate) <==> e.raw.id == n
  {
    var q := "#" + IntToString(n);
    IntToStringNonNegDigits(n);
    TrimNoop(q, IsJsWhitespace);
    assert JsTrim(q) == q;
    assert RemoveFirst(q, '#') == IntToString(n);
    LowerOfDigits(IntToString(n));
    assert SearchTerm(q) == IntToString(n);
    if IntToString(e.raw.id) == IntToString(n) {
      IntToStringInjective(e.raw.id, n);
    }
  }

  /** A lone "#" is an identifier search for the empty text and matches nobody. */
  lemma HashAloneMatchesNobody(e: Enriched, query: string, localeDate: string -> string)
    requires JsTrim(query) == "#"
    ensures !MatchesSearch(e, query, localeDate)
  {
    assert RemoveFirst("#", '#') == "";
  }

  /** The text search ignores case: a query whose lower-cased form occurs in
    * the lower-cased department name matches, so "eng" matches "Engineering". */
  lemma TextSearchIgnoresCase(e: Enriched, query: string, localeDate: string -> string)
    requires !IsIdSearch(query) && '#' !in JsTrim(query)
    requires e.department.Some? && Contains(Lower(e.department.value), Lower(JsTrim(query)))
    ensures MatchesSearch(e, query, localeDate)
  {
    assert SearchFields(e, localeDate)[4] == e.department.value;
  }

  /** The lower-cased catalog name "Engineering" begins with "eng". */
  lemma EngineeringContainsEng()
    ensures Contains(Lower("Engineering"), "eng")
  {
    LowerPrefix("Engineering", "eng");
    assert OccursAt(Lower("Engineering"), "eng", 0);
  }

  /** The query "eng" is a plain text search for itself. */
  lemma EngQueryIsText()
    ensures !IsIdSearch("eng") && '#' !in JsTrim("eng") && Lower(JsTrim("eng")) == "eng"
  {
    var q := "eng";
    assert q[0] == 'e' && q[|q| - 1] == 'g';
    assert !IsJsWhitespace('e') && !IsJsWhitespace('g');
    JsTrimNoop(q);
    LowerNoUpper(q);
  }

  /** "eng" finds an employee of the Engineering department. */
  lemma EngineeringExample(e: Enriched, localeDate: string -> string)
    requires e.department == Some("Engineering")
    ensures MatchesSearch(e, "eng", localeDate)
  {
    EngineeringContainsEng();
    EngQueryIsText();
    TextSearchIgnoresCase(e, "eng", localeDate);
  }

  /** An employee whose rank has no catalog entry is found by the text
    * "undefined", the rendering of the missing name. */
  lemma MissingNameIsSearchable(e: Enriched, query: string, localeDate: string -> string)
    requires e.rank.None? && query == "undefined"
    ensures MatchesSearch(e, query, localeDate)
  {
    UndefinedQueryIsText(query);
    var fields := SearchFields(e, localeDate);
    assert fields[2] == query;
    ContainsItself(query);
    assert Contains(Lower(fields[2]), SearchTerm(query));
  }

  /** The query "undefined" is a plain text search for itself. */
  lemma UndefinedQueryIsText(q: string)
    requires q == "undefined"
    ensures !IsIdSearch(q) && SearchTerm(q) == q && Lower(q) == q
  {
    assert q[0] == 'u' && q[|q| - 1] == 'd';
    assert !IsJsWhitespace('u') && !IsJsWhitespace('d');
    JsTrimNoop(q);
    assert '#' !in q;
    LowerNoUpper(q);
  }

  /** One response of the fan-out of DELETE requests: the promise rejects
    * (network failure) or settles with a status that nobody inspects. */
  datatype DeleteResponse = Rejected | Settled(status: int)

  predicate AllSettled(rs: seq<DeleteResponse>) {
    forall k :: 0 <= k < |rs| ==> rs[k].Settled?
  }

  /** The dashboard state: the hook's store plus the selected ids and the
    * current search and filter inputs. */
  class DashboardPage {
    const data: EmployeesStore
    var selectedIds: seq<int>
    var searchQuery: string
    var filters: Filters

    constructor (data: EmployeesStore)
      ensures this.data == data
      ensures selectedIds == [] && searchQuery == "" && filters == NoFilters
    {
      this.data := data;
      selectedIds := [];
      searchQuery := "";
      filters := NoFilters;
    }

    /** The list handed to the table. */
    function Visible(localeDate: string -> string): seq<Enriched>
      reads this, data
    {
      FilteredEmployees(data.employees, searchQuery, filters, localeDate)
    }

    /** A row checkbox changed. */
    method ToggleCheckbox(id: int, checked: bool)
      modifies this
      ensures selectedIds == EmployeeTable.Toggled(old(selectedIds), id, checked)
      ensures searchQuery == old(searchQuery) && filters == old(filters)
    {
      selectedIds := EmployeeTable.Toggled(selectedIds, id, checked);
    }

    /** The header checkbox changed: it acts on the visible employees only. */
    method HeaderChange(checked: bool, localeDate: string -> string)
      modifies this
      ensures selectedIds == EmployeeTable.HeaderSelection(old(Visible(localeDate)), checked)
      ensures searchQuery == old(searchQuery) && filters == old(filters)
    {
      selectedIds := EmployeeTable.HeaderSelection(Visible(localeDate), checked);
    }

    /** `handleDeleteSelectedEmployees`. `confirmed` is the answer of the
      * confirmation dialog, `responses` the outcome of each DELETE, `refetch`
      * the re-fetched employee list (`None` when that fetch or its JSON throws).
      * Returns the ids a DELETE was sent for and whether the alert was shown. */
    method DeleteSelected(confirmed: bool, responses: seq<DeleteResponse>, refetch: Option<seq<RawEmployee>>)
      returns (deleted: seq<int>, alerted: bool)
      requires confirmed ==> |responses| == |selectedIds|
      modifies this, data
      ensures data.meta == old(data.meta)
      ensures searchQuery == old(searchQuery) && filters == old(filters)
      ensures !confirmed ==>
        && deleted == [] && !alerted
        && selectedIds == old(selectedIds)
        && data.employees == old(data.employees) && data.loading == old(data.loading)
      ensures confirmed ==> deleted == old(selectedIds) && !data.loading
      ensures confirmed && AllSettled(responses) && refetch.Some? ==>
        && data.employees == EnrichAll(refetch.value, old(data.meta))
        && selectedIds == [] && !alerted
      ensures confirmed && !(AllSettled(responses) && refetch.Some?) ==>
        && data.employees == old(data.employees)
        && selectedIds == old(selectedIds) && alerted
    {
      deleted, alerted := [], false;
      if !confirmed {
        return;
      }
      data.loading := true;
      deleted := selectedIds;
      if AllSettled(responses) && refetch.Some? {
        var m := data.meta;
        data.employees := EnrichAll(refetch.value, m);
        selectedIds := [];
      } else {
        alerted := true;
      }
      data.loading := false;
    }
  }
}
