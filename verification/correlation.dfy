/**
 The correlation tab: which columns are numeric, which of them the feature
 picker preselects, and whether a heatmap is drawn or a warning shown. The
 Pearson coefficients themselves are not modelled; a heatmap is described by
 the features on its axes.
 */
module Correlation {
  import opened Frames

  /** The column dtypes that matter here; only integer and float columns are numeric. */
  datatype DType = Integer | Floating | Boolean | Text

  datatype Column = Column(name: string, dtype: DType)

  predicate IsNumeric(c: Column) {
    c.dtype == Integer || c.dtype == Floating
  }

  /** The two numeric columns the picker leaves out by default. */
  const ExcludedByDefault: seq<string> := ["EmployeeID", "AttritionNumeric"]

  predicate KeptByDefault(c: Column) {
    c.name !in ExcludedByDefault
  }

  /** The names of a list of columns, in the same order. */
  function Names(cols: seq<Column>): (names: seq<string>)
    ensures |names| == |cols| && forall i :: 0 <= i < |cols| ==> names[i] == cols[i].name
  {
    seq(|cols|, i requires 0 <= i < |cols| => cols[i].name)
  }

  /** Taking names keeps a sub-list a sub-list. */
  lemma {:induction false} NamesKeepSubsequence(a: seq<Column>, b: seq<Column>)
    requires IsSubsequence(a, b)
    ensures IsSubsequence(Names(a), Names(b))
    decreases |b|
  {
    if |b| > 0 {
      assert Names(b)[1..] == Names(b[1..]);
      if |a| > 0 && a[0] == b[0] && IsSubsequence(a[1..], b[1..]) {
        assert Names(a)[1..] == Names(a[1..]);
        NamesKeepSubsequence(a[1..], b[1..]);
      } else {
        NamesKeepSubsequence(a, b[1..]);
      }
    }
  }

  /** The numeric columns, in table order (`select_dtypes(include=np.number)`). */
  function NumericColumns(schema: seq<Column>): (cols: seq<Column>)
    ensures forall c :: c in cols <==> c in schema && IsNumeric(c)
    ensures IsSubsequence(cols, schema)
  {
    Where(schema, IsNumeric)
  }

  /**
   The features the picker preselects: the names of the numeric columns in
   table order, without `EmployeeID` and `AttritionNumeric`.
   */
  function DefaultFeatures(schema: seq<Column>): (names: seq<string>)
    ensures forall n :: n in names <==>
      (exists c :: c in schema && IsNumeric(c) && c.name == n) && n != "EmployeeID" && n != "AttritionNumeric"
    ensures IsSubsequence(names, Names(schema))
  {
    var numeric := NumericColumns(schema);
    var kept := Where(numeric, KeptByDefault);
    SubsequenceTransitive(kept, numeric, schema);
    NamesKeepSubsequence(kept, schema);
    var names := Names(kept);
    assert forall n :: n in names <==> exists c :: c in kept && c.name == n by {
      forall n
        ensures n in names <==> exists c :: c in kept && c.name == n
      {
        if n in names {
          var i :| 0 <= i < |names| && names[i] == n;
          assert kept[i] in kept;
        }
        if exists c :: c in kept && c.name == n {
          var c :| c in kept && c.name == n;
          var i :| 0 <= i < |kept| && kept[i] == c;
          assert names[i] == n;
        }
      }
    }
    names
  }

  /** A column is preselected when it is numeric and not one of the two excluded columns. */
  predicate Preselected(c: Column) {
    IsNumeric(c) && c.name !in ExcludedByDefault
  }

  /**
   The preselected features are what a single mask over the whole schema keeps:
   the names of the preselected columns, in table order.
   */
  lemma DefaultFeaturesAreOneMask(schema: seq<Column>)
    ensures DefaultFeatures(schema) == Names(Where(schema, Preselected))
  {
    WhereOfWhere(schema, IsNumeric, KeptByDefault, Preselected);
  }

  /** The first column called `name`. */
  function FindColumn(cols: seq<Column>, name: string): (c: Column)
    requires name in Names(cols)
    ensures c in cols && c.name == name
    ensures exists i :: 0 <= i < |cols| && cols[i] == c && forall j :: 0 <= j < i ==> cols[j].name != name
  {
    assert Names(cols)[1..] == Names(cols[1..]);
    if cols[0].name == name then cols[0] else FindColumn(cols[1..], name)
  }

  /** A heatmap over the chosen features, or the warning that none is chosen. */
  datatype Heatmap = EmptySelectionWarning | Matrix(features: seq<Column>)

  /**
   The correlation heatmap for the features picked among the numeric columns.
   An empty pick yields a warning and no matrix; otherwise both axes carry the
   picked numeric columns in pick order.
   */
  function CorrelationHeatmap(schema: seq<Column>, picked: seq<string>): (h: Heatmap)
    requires forall n :: n in picked ==> n in Names(NumericColumns(schema))
    ensures h.EmptySelectionWarning? <==> |picked| == 0
    ensures h.Matrix? ==> |h.features| == |picked|
    ensures h.Matrix? ==> forall i :: 0 <= i < |picked| ==>
      h.features[i].name == picked[i] && h.features[i] in schema && IsNumeric(h.features[i])
  {
    if |picked| == 0 then EmptySelectionWarning
    else
      var numeric := NumericColumns(schema);
      Matrix(seq(|picked|, i requires 0 <= i < |picked| => FindColumn(numeric, picked[i])))
  }
}
