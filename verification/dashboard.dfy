/**
 One pass of the dashboard after a selection change: filter the loaded table
 once, then compute the KPIs and every chart's counts from that one view.
 */
module Dashboard {
  import opened Employees
  import opened Frames
  import opened Tally
  import opened Filters
  import opened Kpis
  import opened Charts

  /** The three headline figures. */
  datatype Kpi = Kpi(totalEmployees: nat, attritionCount: nat, attritionRate: real)

  /** The headline figures of a view: its size, its leavers, and their share in percent. */
  function Headline(v: seq<Record>): (k: Kpi)
    ensures k.totalEmployees == |v|
    ensures k.attritionCount == AttritionCount(v) && k.attritionCount <= k.totalEmployees
    ensures 0.0 <= k.attritionRate <= 100.0
    ensures k.attritionRate == 0.0 <==> k.attritionCount == 0
    ensures k.totalEmployees > 0 ==> IsPercentOf(k.attritionRate, k.attritionCount, k.totalEmployees)
  {
    Kpi(|v|, AttritionCount(v), AttritionRate(v))
  }

  /** Everything the page shows for one selection, all derived from `view`. */
  datatype Snapshot = Snapshot(
    view: seq<Record>,
    kpi: Kpi,
    attritionByDepartment: map<(string, string), nat>,
    technologyRoles: RoleChart,
    genderCounts: map<string, nat>)

  /** Filter the table with the selection and compute every figure from the result. */
  function Recompute(t: seq<Record>, sel: FilterSelection): (s: Snapshot)
    ensures forall r :: r in s.view <==> r in t && Matches(sel, r)
    ensures forall r :: multiset(s.view)[r] == if Matches(sel, r) then multiset(t)[r] else 0
    ensures IsSubsequence(s.view, t)
    ensures s.kpi == Headline(s.view)
    ensures s.attritionByDepartment == AttritionByDepartment(s.view)
    ensures s.technologyRoles == TechnologyRoles(s.view)
    ensures s.genderCounts == GenderCounts(s.view)
  {
    var v := FilterView(t, sel);
    FilterViewMultiplicity(t, sel);
    Snapshot(
      v,
      Headline(v),
      AttritionByDepartment(v),
      TechnologyRoles(v),
      GenderCounts(v))
  }

  /**
   The figures of one snapshot agree with each other: the department/attrition
   groups and the gender slices each add up to the employee count, and the
   Technology role counts add up to at most that many.
   */
  lemma SnapshotIsConsistent(t: seq<Record>, sel: FilterSelection)
    ensures Total(Recompute(t, sel).attritionByDepartment) == Recompute(t, sel).kpi.totalEmployees
    ensures Total(Recompute(t, sel).genderCounts) == Recompute(t, sel).kpi.totalEmployees
    ensures Recompute(t, sel).technologyRoles.RoleCounts? ==>
      Total(Recompute(t, sel).technologyRoles.counts) <= Recompute(t, sel).kpi.totalEmployees
  {
    var v := FilterView(t, sel);
    AttritionByDepartmentSumsToTotal(v);
    GenderCountsSumToTotal(v);
    TechnologyRolesSumToSubset(v);
    SubsequenceLength(TechnologyRows(v), v);
  }

  /** When Technology is not among the selected departments the role chart shows no data. */
  lemma DeselectedTechnologyHasNoRoleData(t: seq<Record>, sel: FilterSelection)
    requires Technology !in sel.departments
    ensures Recompute(t, sel).technologyRoles == NoTechnologyData
  {
  }

  /**
   On a loaded table the attrition KPI, which tests the attrition string, agrees
   with the sum of the mirror column over the same view.
   */
  lemma AttritionCountMatchesMirror(raw: seq<Employee>, sel: FilterSelection)
    ensures Recompute(LoadTable(raw), sel).kpi.attritionCount == MirrorSum(Recompute(LoadTable(raw), sel).view)
  {
    var t := LoadTable(raw);
    var v := FilterView(t, sel);
    LoadTableConsistent(raw);
    forall i | 0 <= i < |v|
      ensures MirrorConsistent(v[i])
    {
      assert v[i] in t;
    }
    MirrorSumIsAttritionCount(v);
  }

  /**
   The page as first shown (or after a reset) on a non-empty file: the view is
   the whole loaded table, and the KPIs count every employee.
   */
  lemma FirstPageShowsEveryone(raw: seq<Employee>)
    requires |raw| > 0
    ensures DefaultSelection(LoadTable(raw)).Some?
    ensures Recompute(LoadTable(raw), DefaultSelection(LoadTable(raw)).value).view == LoadTable(raw)
    ensures Recompute(LoadTable(raw), DefaultSelection(LoadTable(raw)).value).kpi.totalEmployees == |raw|
  {
    DefaultSelectionShowsWholeTable(LoadTable(raw));
  }
}
