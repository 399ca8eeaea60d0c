/**
 The employee table as the dashboard loads it: one `Employee` per CSV row,
 extended at load time with the derived `AttritionNumeric` column.
 */
module Employees {

  datatype Option<T> = None | Some(value: T)

  /** The attrition value that marks an employee who has left. */
  const Yes: string := "Yes"

  /** One row of the employee CSV, restricted to the columns the dashboard reads. */
  datatype Employee = Employee(
    employeeId: int,
    department: string,
    jobRole: string,
    city: string,
    gender: string,
    yearsOfExperience: int,
    salaryInr: int,
    attrition: string)

  /** A row of the loaded table: the CSV row and its `AttritionNumeric` mirror. */
  datatype Record = Record(row: Employee, attritionNumeric: int)

  /** The value the load step stores in `AttritionNumeric` for an attrition string. */
  function AttritionMirror(attrition: string): (n: int)
    ensures n == 1 <==> attrition == Yes
    ensures n == 0 <==> attrition != Yes
  {
    if attrition == Yes then 1 else 0
  }

  /** The mirror column of `r` agrees with its attrition string. */
  predicate MirrorConsistent(r: Record) {
    r.attritionNumeric == AttritionMirror(r.row.attrition)
  }

  /**
   The loaded table: every CSV row, in order and unchanged, with the mirror
   column derived once from its attrition string.
   */
  function LoadTable(raw: seq<Employee>): (t: seq<Record>)
    ensures |t| == |raw|
    ensures forall i :: 0 <= i < |t| ==> t[i].row == raw[i]
    ensures forall i :: 0 <= i < |t| ==> (t[i].attritionNumeric == 1 <==> raw[i].attrition == Yes)
    ensures forall i :: 0 <= i < |t| ==> (t[i].attritionNumeric == 0 <==> raw[i].attrition != Yes)
  {
    seq(|raw|, i requires 0 <= i < |raw| => Record(raw[i], AttritionMirror(raw[i].attrition)))
  }

  /** Every row of a loaded table carries a consistent mirror. */
  lemma LoadTableConsistent(raw: seq<Employee>)
    ensures forall i :: 0 <= i < |raw| ==> MirrorConsistent(LoadTable(raw)[i])
  {
  }
}
