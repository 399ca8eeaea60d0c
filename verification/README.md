# Employee analytics dashboard — filter-and-aggregate model

A Dafny model of the data view behind the IMVED employee analytics dashboard
(`analysis.py`). The dashboard loads an employee table, derives the numeric
attrition mirror `AttritionNumeric`, lets the user narrow the table by
department, city and an inclusive range of years of experience, and computes
every figure on the page from that one filtered view. Those figures are the
employee count, the attrition count and rate, the attrition-by-department
groups, the Technology job-role counts and the gender counts. The correlation
tab preselects numeric features.

The table is a `seq<Record>`. A `Record` is a CSV row (`Employee`) plus its mirror
column. Every operation is a pure function.

- `frames.dfy` (`Frames`): boolean-mask selection (`Where`, the `df[mask]` of
  pandas), first-appearance de-duplication (`Distinct`, `Series.unique()`), and
  the sub-list relation that states "kept in table order".
- `tally.dfy` (`Tally`): counts per key as a `map<K, nat>` (`groupby().size()`,
  `value_counts()`), where absent keys are not zero-filled, and their sum `Total`.
- `employees.dfy` (`Employees`): the row types, the mirror, and the load step.
- `filters.dfy` (`Filters`): the selection, its default (also the reset
  target), and the filtered view.
- `kpis.dfy` (`Kpis`): attrition count and rate.
- `charts.dfy` (`Charts`): the three count aggregations.
- `correlation.dfy` (`Correlation`): numeric columns, default features, and
  heatmap or warning.
- `dashboard.dfy` (`Dashboard`): one recompute pass and the consistency of its results.

The attrition rate is an exact rational (`real`): count * 100 / total, or 0 for an
empty view. It is also 0 for a non-empty view in which nobody left, so
`AttritionRate` is 0 exactly when the attrition count is 0, not exactly when the
view is empty.

## Model

| member | source | states |
|---|---|---|
| Employees.AttritionMirror | analysis.py:101 | the mirror is 1 exactly for the string "Yes" and 0 for every other value, "No" and unexpected strings alike |
| Employees.LoadTable | analysis.py:99-102 | loading keeps every CSV row, in order and unchanged, and adds a mirror that is 1 exactly when that row's attrition is "Yes" and 0 otherwise |
| Kpis.MirrorSumIsAttritionCount | analysis.py:101 | on rows whose mirror was derived at load, summing `AttritionNumeric` gives exactly the number of rows with attrition "Yes" |
| Dashboard.AttritionCountMatchesMirror | analysis.py:170 | for any selection over a loaded table, the attrition KPI equals the sum of the mirror column over the filtered view |
| Frames.Distinct | analysis.py:125-126 | the department or city options hold every value of the column exactly once, in order of first appearance |
| Filters.MinExperience | analysis.py:127 | the lower slider bound is an experience value of some row, and no row has less |
| Filters.MaxExperience | analysis.py:127 | the upper slider bound is an experience value of some row, and no row has more |
| Filters.DefaultSelection | analysis.py:124-136 | the initial and reset selection is all distinct departments, all distinct cities and the observed [min, max] experience range; an empty table has no default, because its minimum cannot be converted to an integer |
| Frames.Where | analysis.py:161-165 | a boolean mask keeps exactly the rows it accepts, unaltered and in table order |
| Frames.WhereKeepsAll | analysis.py:161-165 | a mask keeps every row exactly when it accepts every row, and then the result is the table itself |
| Filters.FilterView | analysis.py:161-165 | soundness: every row of the view is a table row meeting all three conditions together (department selected, city selected, lo <= experience <= hi); completeness: every such table row is in the view; the view keeps table order |
| Filters.FilterViewMultiplicity | analysis.py:161-165 | a matching row appears in the view exactly as many times as in the table, and a non-matching row never appears |
| Filters.DefaultSelectionShowsWholeTable | analysis.py:131-165 | for a non-empty table, the default or reset selection gives a filtered view equal to the whole table |
| Kpis.AttritionCount | analysis.py:170 | the attrition count is at most the row count; it is 0 exactly when no row has "Yes", and equals the row count exactly when every row has "Yes" |
| Kpis.Percent | analysis.py:171 | for 0 <= count <= total and total > 0, the share lies in [0, 100], satisfies share * total = count * 100, is 0 exactly when count is 0 and 100 exactly when count equals total |
| Kpis.AttritionRate | analysis.py:171 | the rate lies in [0, 100]; it is 0 for an empty view; otherwise rate * total = count * 100; it is 0 exactly when the count is 0, and 100 exactly when every row of a non-empty view left |
| Tally.Count | analysis.py:199 | a key is present exactly when some row carries it, its count is the key's number of occurrences, and so every present count is at least 1 |
| Tally.CountTotal | analysis.py:199 | the counts of a key column add up to the number of rows |
| Charts.AttritionByDepartment | analysis.py:199 | a (department, attrition) group is present exactly when some row of the view belongs to it; its count is the number of such rows and at least 1 |
| Charts.AttritionByDepartmentSumsToTotal | analysis.py:199 | the group counts add up to the number of rows in the view |
| Charts.TechnologyRows | analysis.py:212 | the Technology subset is exactly the view's rows whose department is "Technology", each as many times as in the view, in view order; it is empty exactly when no such row exists |
| Charts.TechnologyRoles | analysis.py:212-225 | with no Technology row there is a "no data" result and no counts; otherwise a role is counted exactly when some Technology row has it, and its count is the number of Technology rows with that role (so at least 1) |
| Charts.TechnologyRolesSumToSubset | analysis.py:214 | the role counts add up to the size of the Technology subset |
| Charts.GenderCounts | analysis.py:235 | a gender is present exactly when some row of the view has it; its count is the number of such rows and at least 1 |
| Charts.GenderCountsSumToTotal | analysis.py:235 | the gender counts add up to the number of rows in the view |
| Correlation.NumericColumns | analysis.py:277 | the numeric columns are exactly the integer and float columns, in table order |
| Correlation.DefaultFeatures | analysis.py:283 | the preselected features are the names of the numeric columns other than `EmployeeID` and `AttritionNumeric`, in table order |
| Correlation.DefaultFeaturesAreOneMask | analysis.py:277-283 | the two-step choice (numeric columns, then drop the two excluded names) equals the names of the columns one combined mask keeps, in table order |
| Correlation.CorrelationHeatmap | analysis.py:286-296 | an empty pick yields a warning and no matrix; otherwise the matrix axes are the picked numeric columns, in pick order |
| Dashboard.Headline | analysis.py:169-171 | the employee count is the view's size; the attrition count is the number of the view's "Yes" rows and no larger; the rate lies in [0, 100], is 0 exactly when that count is 0, and otherwise satisfies rate * total = count * 100 |
| Dashboard.Recompute | analysis.py:161-235 | one pass filters once and derives everything from that one view: the view holds exactly the matching table rows, each as many times as in the table, in table order, the KPIs are the view's headline figures, and the department/attrition groups, Technology role chart and gender counts are those of the view |
| Dashboard.SnapshotIsConsistent | analysis.py:169-235 | in one pass the department/attrition groups and the gender counts each add up to the employee count, and the Technology role counts add up to at most that many |
| Dashboard.DeselectedTechnologyHasNoRoleData | analysis.py:212-225 | when Technology is not a selected department, the role chart reports no data |
| Dashboard.FirstPageShowsEveryone | analysis.py:131-169 | on a non-empty file, the first page (or the page after a reset) shows the whole loaded table, and the employee count is the number of CSV rows |

## Left out

- Reading the CSV, the `FileNotFoundError` message and `st.stop`: file I/O. The model takes the rows as a value.
- `@st.cache_data`: caching does not change any result.
- Columns other than the eight the dashboard reads: the CSV file is not part of this model.
- Streamlit session state, the widgets themselves, `st.experimental_rerun`, page styling and markdown: UI framework behaviour. The initial selection and the reset both compute `DefaultSelection`.
- The slider keeps `lo <= hi` inside the observed range. The filter does not rely on this, so the model does not require it.
- Correlation.CorrelationHeatmap: requires every picked name to be a numeric column. The multiselect widget only offers those columns.
- Plotly rendering: the 30-bin salary histogram (its bins are internal to the library and floating point), the scatter plot, the pie and bar layouts, and the heatmap colours.
- Average salary: a floating-point mean that is NaN on an empty view.
- The Pearson coefficients of the correlation matrix: floating-point numerics inside pandas. A heatmap is described by its axes only.
- `convert_df_to_csv` and the UTF-8 download: pandas serialisation.
- The descending order of `value_counts` and `sort_values`: presentation order only. Counts are maps.
- Kpis.AttritionRate: an exact rational, so the rounding of Python's float division and of the `:.2f` display is not modelled.
- Missing CSV cells (NaN): every field of a row is a present string or integer. pandas drops NaN keys in `groupby` and `value_counts`, and `between` rejects a NaN experience. So the model's properties hold only for tables without missing cells. This affects Charts.AttritionByDepartmentSumsToTotal, Charts.GenderCountsSumToTotal, Charts.TechnologyRolesSumToSubset and Filters.DefaultSelectionShowsWholeTable.
- Charts.AttritionByDepartmentSumsToTotal: assumes no missing department or attrition cell, see the line above.
- Charts.GenderCountsSumToTotal: assumes no missing gender cell.
- Charts.TechnologyRolesSumToSubset: assumes no missing job-role cell.
- Filters.DefaultSelectionShowsWholeTable: assumes no missing department, city or experience cell.
- The column list the correlation functions take is any schema. Nothing ties it to the loaded table's columns, such as `AttritionNumeric` being an integer column that the load step adds, because the CSV's column list is not part of this model. So the default features are not computed for the dashboard's own columns.
- Filters.DefaultSelectionShowsWholeTable: assumes integer experience values, since the model holds experience as an integer. The code converts the slider bounds with `int` (analysis.py:127, analysis.py:136), so with a fractional experience the maximum is truncated (3.7 becomes 3) and the default view drops that row.
