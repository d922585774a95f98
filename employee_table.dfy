/**
 * The selection logic of the employee table: the state updaters passed to
 * `setSelectedIds` by a row checkbox and by the header checkbox, the
 * header's checked state and a row's checked state.
 */
module EmployeeTable {
  import opened EmployeesData
  import opened Seqs

  /** `prev.filter(existingId => existingId !== id)`. */
  function Without(s: seq<int>, id: int): seq<int> {
    Filter(s, x => x != id)
  }

  /** The updater of `toggleCheckbox(id, checked)`. */
  function Toggled(prev: seq<int>, id: int, checked: bool): seq<int> {
    if checked then prev + [id] else Without(prev, id)
  }

  /** The identifiers of a list of employees, in order. */
  function Ids(visible: seq<Enriched>): (r: seq<int>)
    ensures |r| == |visible|
    ensures forall i :: 0 <= i < |visible| ==> r[i] == visible[i].raw.id
  {
    if visible == [] then [] else [visible[0].raw.id] + Ids(visible[1..])
  }

  /** The selection set by the header checkbox over the visible employees. */
  function HeaderSelection(visible: seq<Enriched>, checked: bool): seq<int> {
    if checked then Ids(visible) else []
  }

  /** `employees.length > 0 && selectedIds.length === employees.length`. */
  function AllSelected(visible: seq<Enriched>, selected: seq<int>): bool {
    |visible| > 0 && |selected| == |visible|
  }

  /** `selectedIds.includes(employee.id)`. */
  function RowChecked(id: int, selected: seq<int>): bool {
    id in selected
  }

  /** Checking a row appends its identifier; unchecking removes every
    * occurrence of it and leaves every other identifier with its multiplicity. */
  lemma ToggledSpec(prev: seq<int>, id: int)
    ensures Toggled(prev, id, true) == prev + [id]
    ensures id !in Toggled(prev, id, false)
    ensures forall x :: x != id ==> multiset(Toggled(prev, id, false))[x] == multiset(prev)[x]
  {
    FilterMembership(prev, x => x != id, id);
    forall x | x != id ensures multiset(Toggled(prev, id, false))[x] == multiset(prev)[x] {
      FilterMultiset(prev, y => y != id, x);
    }
  }

  /** Unchecking an id that is not selected changes nothing. */
  lemma {:induction false} UntoggleAbsent(prev: seq<int>, id: int)
    requires id !in prev
    ensures Toggled(prev, id, false) == prev
  {
    if prev != [] {
      UntoggleAbsent(prev[1..], id);
      assert prev == [prev[0]] + prev[1..];
    }
  }

  /** Unchecking works element by element: it distributes over concatenation
    * and keeps a single identifier iff it differs from `id`, so the kept
    * identifiers stay in their relative order. */
  lemma WithoutKeepsOrder(a: seq<int>, b: seq<int>, x: int, id: int)
    ensures Without(a + b, id) == Without(a, id) + Without(b, id)
    ensures Without([x], id) == if x == id then [] else [x]
  {
    FilterAppend(a, b, y => y != id);
  }

  /** The header checkbox selects exactly the visible employees, in order,
    * and unchecking it empties the selection. */
  lemma HeaderSelectionSpec(visible: seq<Enriched>, id: int)
    ensures |HeaderSelection(visible, true)| == |visible|
    ensures RowChecked(id, HeaderSelection(visible, true)) <==> exists i :: 0 <= i < |visible| && visible[i].raw.id == id
    ensures HeaderSelection(visible, false) == []
  {
    var s := Ids(visible);
    if id in s {
      var i :| 0 <= i < |s| && s[i] == id;
      assert visible[i].raw.id == id;
    }
  }

  /** After checking the header, the header shows checked exactly when some
    * employee is visible. */
  lemma HeaderRoundTrip(visible: seq<Enriched>)
    ensures AllSelected(visible, HeaderSelection(visible, true)) <==> |visible| > 0
    ensures !AllSelected(visible, HeaderSelection(visible, false))
  {
  }

  /** The header compares lengths only: one visible employee with id 1 and a
    * selection holding only id 2 shows the header checked while the row is not. */
  lemma AllSelectedIgnoresMembership(e: Enriched)
    requires e.raw.id == 1
    ensures AllSelected([e], [2]) && !RowChecked(e.raw.id, [2])
  {
  }

  predicate NoDuplicates(s: seq<int>) {
    forall i, j :: 0 <= i < j < |s| ==> s[i] != s[j]
  }

  lemma {:induction false} NoDuplicatesCard(s: seq<int>)
    requires NoDuplicates(s)
    ensures |set x | x in s| == |s|
  {
    if s != [] {
      var t := s[1..];
      NoDuplicatesCard(t);
      assert (set x | x in s) == (set x | x in t) + {s[0]};
      assert forall j :: 0 <= j < |t| ==> t[j] == s[j + 1];
    }
  }

  lemma SubsetOfSameSize(a: set<int>, b: set<int>)
    requires a <= b && |a| == |b|
    ensures a == b
  {
    assert b == a + (b - a);
    assert a !! (b - a);
    assert |b - a| == 0;
  }

  /** The length comparison agrees with the membership reading of the header
    * when the selection holds only visible identifiers and neither list
    * repeats an identifier: then every visible row is checked. */
  lemma AllSelectedMeansEveryRowChecked(visible: seq<Enriched>, selected: seq<int>)
    requires AllSelected(visible, selected)
    requires NoDuplicates(selected) && NoDuplicates(Ids(visible))
    requires forall x :: x in selected ==> x in Ids(visible)
    ensures forall i :: 0 <= i < |visible| ==> RowChecked(visible[i].raw.id, selected)
  {
    var ids := Ids(visible);
    SameSizeCovers(selected, ids);
    forall i | 0 <= i < |visible| ensures visible[i].raw.id in selected {
      assert ids[i] == visible[i].raw.id;
    }
  }

  lemma SameSizeCovers(sel: seq<int>, ids: seq<int>)
    requires |sel| == |ids|
    requires NoDuplicates(sel) && NoDuplicates(ids)
    requires forall x :: x in sel ==> x in ids
    ensures forall x :: x in ids ==> x in sel
  {
    var a := set x | x in sel;
    var b := set x | x in ids;
    NoDuplicatesCard(sel);
    NoDuplicatesCard(ids);
    assert a <= b;
    SubsetOfSameSize(a, b);
    forall x | x in ids ensures x in sel {
      assert x in b;
    }
  }
}
