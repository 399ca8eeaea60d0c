/**
 The count aggregations behind the bar and pie charts, each computed from the
 filtered view: attrition by department, job roles within the Technology
 department, and the gender distribution.
 */
module Charts {
  import opened Employees
  import opened Frames
  import opened Tally

  /** The one department whose job roles get a chart of their own. */
  const Technology: string := "Technology"

  /** The (Department, Attrition) pair of every row, in view order. */
  function DepartmentAttritionColumn(v: seq<Record>): (c: seq<(string, string)>)
    ensures |c| == |v| && forall i :: 0 <= i < |v| ==> c[i] == (v[i].row.department, v[i].row.attrition)
  {
    seq(|v|, i requires 0 <= i < |v| => (v[i].row.department, v[i].row.attrition))
  }

  /** The job role of every row, in view order. */
  function JobRoleColumn(v: seq<Record>): (c: seq<string>)
    ensures |c| == |v| && forall i :: 0 <= i < |v| ==> c[i] == v[i].row.jobRole
  {
    seq(|v|, i requires 0 <= i < |v| => v[i].row.jobRole)
  }

  /** The gender of every row, in view order. */
  function GenderColumn(v: seq<Record>): (c: seq<string>)
    ensures |c| == |v| && forall i :: 0 <= i < |v| ==> c[i] == v[i].row.gender
  {
    seq(|v|, i requires 0 <= i < |v| => v[i].row.gender)
  }

  /**
   Row counts per (department, attrition) group. A group is present exactly
   when some row of the view belongs to it, and its count is the number of
   such rows.
   */
  function AttritionByDepartment(v: seq<Record>): (groups: map<(string, string), nat>)
    ensures forall g :: g in groups <==> exists i :: 0 <= i < |v| && (v[i].row.department, v[i].row.attrition) == g
    ensures forall g :: g in groups ==> groups[g] >= 1
    ensures forall g :: g in groups ==> groups[g] == multiset(DepartmentAttritionColumn(v))[g]
  {
    var keys := DepartmentAttritionColumn(v);
    assert forall g :: g in keys <==> exists i :: 0 <= i < |v| && keys[i] == g;
    Count(keys)
  }

  /** The per-group counts add up to the number of rows in the view. */
  lemma AttritionByDepartmentSumsToTotal(v: seq<Record>)
    ensures Total(AttritionByDepartment(v)) == |v|
  {
    CountTotal(DepartmentAttritionColumn(v));
  }

  predicate InTechnology(r: Record) {
    r.row.department == Technology
  }

  /** The Technology rows of the view, unchanged, each as often as in the view, and in view order. */
  function TechnologyRows(v: seq<Record>): (s: seq<Record>)
    ensures forall r :: r in s <==> r in v && r.row.department == Technology
    ensures forall r :: multiset(s)[r] == if r.row.department == Technology then multiset(v)[r] else 0
    ensures IsSubsequence(s, v)
    ensures |s| == 0 <==> forall i :: 0 <= i < |v| ==> v[i].row.department != Technology
  {
    WhereKeepsNone(v, InTechnology);
    WhereMultiplicity(v, InTechnology);
    Where(v, InTechnology)
  }

  /** A role occurs in the job-role column exactly when some row has it. */
  lemma JobRoleColumnMembers(v: seq<Record>)
    ensures forall role :: role in JobRoleColumn(v) <==> exists r :: r in v && r.row.jobRole == role
  {
    var roles := JobRoleColumn(v);
    forall role
      ensures role in roles <==> exists r :: r in v && r.row.jobRole == role
    {
      if role in roles {
        var i :| 0 <= i < |roles| && roles[i] == role;
        assert v[i] in v;
      }
      if exists r :: r in v && r.row.jobRole == role {
        var r :| r in v && r.row.jobRole == role;
        var i :| 0 <= i < |v| && v[i] == r;
        assert roles[i] == role;
      }
    }
  }

  /** The job-role chart: either a note that there is no data, or role counts. */
  datatype RoleChart = NoTechnologyData | RoleCounts(counts: map<string, nat>)

  /**
   Job-role counts within the Technology department. With no Technology row
   in the view the chart reports that there is no data instead of counting.
   */
  function TechnologyRoles(v: seq<Record>): (chart: RoleChart)
    ensures chart.NoTechnologyData? <==> forall i :: 0 <= i < |v| ==> v[i].row.department != Technology
    ensures chart.RoleCounts? ==> forall role :: role in chart.counts <==>
      exists r :: r in v && r.row.department == Technology && r.row.jobRole == role
    ensures chart.RoleCounts? ==> forall role :: role in chart.counts ==> chart.counts[role] >= 1
    ensures chart.RoleCounts? ==> forall role :: role in chart.counts ==>
      chart.counts[role] == multiset(JobRoleColumn(TechnologyRows(v)))[role]
  {
    var s := TechnologyRows(v);
    if |s| == 0 then NoTechnologyData
    else
      var roles := JobRoleColumn(s);
      JobRoleColumnMembers(s);
      RoleCounts(Count(roles))
  }

  /** The role counts add up to the number of Technology rows in the view. */
  lemma TechnologyRolesSumToSubset(v: seq<Record>)
    ensures TechnologyRoles(v).RoleCounts? ==> Total(TechnologyRoles(v).counts) == |TechnologyRows(v)|
  {
    CountTotal(JobRoleColumn(TechnologyRows(v)));
  }

  /**
   Row counts per gender. A gender is present exactly when some row of the
   view has it, and its count is the number of such rows.
   */
  function GenderCounts(v: seq<Record>): (counts: map<string, nat>)
    ensures forall g :: g in counts <==> exists i :: 0 <= i < |v| && v[i].row.gender == g
    ensures forall g :: g in counts ==> counts[g] >= 1
    ensures forall g :: g in counts ==> counts[g] == multiset(GenderColumn(v))[g]
  {
    var keys := GenderColumn(v);
    assert forall g :: g in keys <==> exists i :: 0 <= i < |v| && keys[i] == g;
    Count(keys)
  }

  /** The gender counts add up to the number of rows in the view. */
  lemma GenderCountsSumToTotal(v: seq<Record>)
    ensures Total(GenderCounts(v)) == |v|
  {
    CountTotal(GenderColumn(v));
  }
}
