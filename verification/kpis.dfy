/**
 The three headline figures computed from the filtered view: the number of
 employees, the number who left, and the attrition rate in percent.
 */
module Kpis {
  import opened Employees
  import opened Frames

  /** The attrition filter the KPI uses: the attrition string, not the mirror. */
  predicate HasLeft(r: Record) {
    r.row.attrition == Yes
  }

  /** The number of rows of the view whose attrition is "Yes". */
  function AttritionCount(v: seq<Record>): (n: nat)
    ensures n <= |v|
    ensures n == 0 <==> forall i :: 0 <= i < |v| ==> v[i].row.attrition != Yes
    ensures n == |v| <==> forall i :: 0 <= i < |v| ==> v[i].row.attrition == Yes
  {
    WhereKeepsAll(v, HasLeft);
    WhereKeepsNone(v, HasLeft);
    |Where(v, HasLeft)|
  }

  /** `rate` is `count` out of `total` in percent: rate * total == count * 100. */
  predicate IsPercentOf(rate: real, count: nat, total: nat) {
    rate * (total as real) == (count as real) * 100.0
  }

  /** `count` as a share of a positive `total`, in percent. */
  function Percent(count: nat, total: nat): (rate: real)
    requires 0 < total && count <= total
    ensures 0.0 <= rate <= 100.0
    ensures IsPercentOf(rate, count, total)
    ensures rate == 0.0 <==> count == 0
    ensures rate == 100.0 <==> count == total
  {
    var share := count as real / total as real;
    assert share * (total as real) == count as real;
    assert share == 1.0 <==> count == total;
    share * 100.0
  }

  /**
   The attrition rate in percent, as an exact rational: count * 100 / total,
   and 0 (not a division by zero) for an empty view.
   */
  function AttritionRate(v: seq<Record>): (rate: real)
    ensures 0.0 <= rate <= 100.0
    ensures |v| == 0 ==> rate == 0.0
    ensures |v| > 0 ==> IsPercentOf(rate, AttritionCount(v), |v|)
    ensures rate == 0.0 <==> AttritionCount(v) == 0
    ensures rate == 100.0 <==> |v| > 0 && AttritionCount(v) == |v|
  {
    if |v| > 0 then Percent(AttritionCount(v), |v|) else 0.0
  }

  /** The sum of the `AttritionNumeric` column over a view. */
  function MirrorSum(v: seq<Record>): int {
    if |v| == 0 then 0 else v[0].attritionNumeric + MirrorSum(v[1..])
  }

  /**
   Where the mirror is consistent, summing it counts exactly the rows the
   attrition KPI counts.
   */
  lemma {:induction false} MirrorSumIsAttritionCount(v: seq<Record>)
    requires forall i :: 0 <= i < |v| ==> MirrorConsistent(v[i])
    ensures MirrorSum(v) == AttritionCount(v)
  {
    if |v| > 0 {
      assert forall i :: 1 <= i < |v| ==> v[1..][i - 1] == v[i];
      MirrorSumIsAttritionCount(v[1..]);
    }
  }
}
