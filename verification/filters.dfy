/**
 The sidebar filter: the selection state, its default (which the reset button
 restores), and the filtered view every KPI and chart is computed from.
 */
module Filters {
  import opened Employees
  import opened Frames

  /** The selected departments and cities, and the inclusive experience range. */
  datatype FilterSelection = FilterSelection(
    departments: seq<string>,
    cities: seq<string>,
    minYears: int,
    maxYears: int)

  /** The department column of a table. */
  function Departments(t: seq<Record>): (c: seq<string>)
    ensures |c| == |t| && forall i :: 0 <= i < |t| ==> c[i] == t[i].row.department
  {
    seq(|t|, i requires 0 <= i < |t| => t[i].row.department)
  }

  /** The city column of a table. */
  function Cities(t: seq<Record>): (c: seq<string>)
    ensures |c| == |t| && forall i :: 0 <= i < |t| ==> c[i] == t[i].row.city
  {
    seq(|t|, i requires 0 <= i < |t| => t[i].row.city)
  }

  /** The smallest years of experience in a non-empty table. */
  function MinExperience(t: seq<Record>): (m: int)
    requires |t| > 0
    ensures exists i :: 0 <= i < |t| && t[i].row.yearsOfExperience == m
    ensures forall i :: 0 <= i < |t| ==> m <= t[i].row.yearsOfExperience
  {
    if |t| == 1 then t[0].row.yearsOfExperience
    else
      var rest := MinExperience(t[1..]);
      assert forall i :: 1 <= i < |t| ==> t[1..][i - 1] == t[i];
      if t[0].row.yearsOfExperience <= rest then t[0].row.yearsOfExperience else rest
  }

  /** The largest years of experience in a non-empty table. */
  function MaxExperience(t: seq<Record>): (m: int)
    requires |t| > 0
    ensures exists i :: 0 <= i < |t| && t[i].row.yearsOfExperience == m
    ensures forall i :: 0 <= i < |t| ==> t[i].row.yearsOfExperience <= m
  {
    if |t| == 1 then t[0].row.yearsOfExperience
    else
      var rest := MaxExperience(t[1..]);
      assert forall i :: 1 <= i < |t| ==> t[1..][i - 1] == t[i];
      if t[0].row.yearsOfExperience >= rest then t[0].row.yearsOfExperience else rest
  }

  /**
   The selection the sidebar starts with and the reset button restores: every
   department and every city of the table, each once in order of first
   appearance, and the observed experience range. An empty table has no
   experience range (its minimum is NaN, which cannot be made an integer),
   so there is no default selection for it.
   */
  function DefaultSelection(t: seq<Record>): (o: Option<FilterSelection>)
    ensures o.None? <==> |t| == 0
    ensures o.Some? ==> forall d :: d in o.value.departments <==> d in Departments(t)
    ensures o.Some? ==> forall c :: c in o.value.cities <==> c in Cities(t)
    ensures o.Some? ==> NoDuplicates(o.value.departments) && NoDuplicates(o.value.cities)
    ensures o.Some? ==> forall i :: 0 <= i < |t| ==>
      o.value.minYears <= t[i].row.yearsOfExperience <= o.value.maxYears
    ensures o.Some? ==> exists i :: 0 <= i < |t| && t[i].row.yearsOfExperience == o.value.minYears
    ensures o.Some? ==> exists i :: 0 <= i < |t| && t[i].row.yearsOfExperience == o.value.maxYears
  {
    if |t| == 0 then None
    else Some(FilterSelection(Distinct(Departments(t)), Distinct(Cities(t)), MinExperience(t), MaxExperience(t)))
  }

  /** A row passes the filter when all three conditions hold together. */
  predicate Matches(sel: FilterSelection, r: Record) {
    && r.row.department in sel.departments
    && r.row.city in sel.cities
    && sel.minYears <= r.row.yearsOfExperience <= sel.maxYears
  }

  /**
   The filtered view: exactly the rows of the table that satisfy all three
   conditions, unchanged and in table order.
   */
  function FilterView(t: seq<Record>, sel: FilterSelection): (v: seq<Record>)
    ensures forall r :: r in v ==> r in t && Matches(sel, r)
    ensures forall r :: r in t && Matches(sel, r) ==> r in v
    ensures IsSubsequence(v, t)
  {
    Where(t, r => Matches(sel, r))
  }

  /** Filtering keeps every matching row as often as the table holds it and drops the rest. */
  lemma FilterViewMultiplicity(t: seq<Record>, sel: FilterSelection)
    ensures forall r :: multiset(FilterView(t, sel))[r] == if Matches(sel, r) then multiset(t)[r] else 0
  {
    WhereMultiplicity(t, r => Matches(sel, r));
  }

  /** With the default (or reset) selection the filtered view is the whole table. */
  lemma DefaultSelectionShowsWholeTable(t: seq<Record>)
    requires |t| > 0
    ensures DefaultSelection(t).Some?
    ensures FilterView(t, DefaultSelection(t).value) == t
  {
    var sel := DefaultSelection(t).value;
    forall i | 0 <= i < |t|
      ensures Matches(sel, t[i])
    {
      assert Departments(t)[i] == t[i].row.department;
      assert Cities(t)[i] == t[i].row.city;
    }
    WhereKeepsAll(t, r => Matches(sel, r));
  }
}
