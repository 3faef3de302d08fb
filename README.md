# SDMetrics core in Dafny: radius-nearest-neighbour attacker, minimum versions, relationship plot data

This project models three small pieces of SDMetrics. It then proves what each one computes.

- **Radius-nearest-neighbour privacy attacker** (`RadiusNearestNeighbor`, file `radius_nearest_neighbor.dfy`).
  - `NumericalRadiusNearestNeighborAttacker` is fitted on a synthetic table, a list of key fields and a list of sensitive fields. It then predicts sensitive values for a query key tuple.
  - Each synthetic row gets a weight from the `InverseCDFCutoff` weight function. The prediction is the sum of the sensitive vectors divided by the total weight. When the total weight is 0, it is the zero tuple.
  - `InverseCDFCutoff` stores `cutoff**p`. Each `fit` multiplies that stored value by the number of key columns. It gives weight 1 exactly when the inverse-CDF distance is strictly below the threshold.
  - Both classes are Dafny classes whose methods update fields. `predict` is a method with a loop. It is proved equal to the recursive specification `Prediction`.
- **Minimum-version resolution** (`MinimumVersions`, file `tasks.dfy`).
  - This folds the project's dependency list into an insertion-ordered dictionary from package name to pinned requirement.
  - A URL dependency always wins.
  - A requirement whose environment marker is false is skipped.
  - Otherwise the version of the first `>=`/`==` specifier is pinned, and a pin is raised only to a strictly greater version.
- **Relationship plot data** (`PlotUtils`, file `plot_utils.dfy`).
  - This flattens the map from metric to (parent, child) table pair to `{score}` into three parallel columns.
  - The columns are relationship label (child first), metric and score. NaN scores are dropped.

`Wrappers` (file `wrappers.dfy`) holds the `Option` and `Result` datatypes.

Vectors and weights are exact `real`s. The inverse-CDF distance from `loss.py` is injected as a value of type `Distance`: any non-negative function of the exponent, the fitted CDFs and the two key tuples. The `packaging` library is replaced by datatypes:

- a requirement carries its name, its marker as a predicate on the Python version, and its specifiers;
- a version is its release segment `seq<nat>`, compared component by component, with missing components counting as 0.

Documentation and code disagree in two places. The model follows the code in both.

- The class docstring (radius_nearest_neighbor.py:10-12) calls the prediction a weighted mean. The code (:47-51) adds every row's sensitive vector without its weight. See Findings.
- The `InverseCDFCutoff` docstring (:64) says `<=`. The code (:78) uses strict `<`.

Two sharp edges are stated and kept, not corrected:

- The zero-weight fallback returns the zero tuple, which is not a "no prediction" signal.
- Fitting a cutoff twice multiplies its threshold twice (`Fit` ensures `cutoff == old(cutoff) * |cols|`). With zero key columns the threshold is 0, so no row is a neighbour.

## Model

| member | source | states |
|---|---|---|
| `RadiusNearestNeighbor.InverseCdfCutoff.constructor` | sdmetrics/single_table/privacy/radius_nearest_neighbor.py:67-70 | keeps p, sets no CDFs, and stores the threshold `cutoff**p` |
| `RadiusNearestNeighbor.InverseCdfCutoff.Fit` | sdmetrics/single_table/privacy/radius_nearest_neighbor.py:72-74 | fits the CDFs on (data, cols) and multiplies the stored threshold by the column count; keeps the invariant threshold = cutoff**p × product of all fits' column counts |
| `RadiusNearestNeighbor.InverseCdfCutoff.Measure` | sdmetrics/single_table/privacy/radius_nearest_neighbor.py:76-78 | the weight is only ever 0 or 1, and is 1 exactly when the distance is strictly below cutoff**p × the fitted column counts |
| `RadiusNearestNeighbor.NumericalRadiusNearestNeighborAttacker.constructor` | sdmetrics/single_table/privacy/radius_nearest_neighbor.py:15-30 | builds the cutoff weight from the keyword arguments, with p = 2 and cutoff = 0.1 for absent ones (also when none are given); nothing is fitted |
| `RadiusNearestNeighbor.NumericalRadiusNearestNeighborAttacker.Fit` | sdmetrics/single_table/privacy/radius_nearest_neighbor.py:32-36 | fits the weight function on (synthetic data, key fields) and stores the three arguments exactly as given |
| `RadiusNearestNeighbor.NumericalRadiusNearestNeighborAttacker.Predict` | sdmetrics/single_table/privacy/radius_nearest_neighbor.py:38-56 | changes nothing and returns `Prediction` for the weight function's current kernel; the loop keeps the running weight, running sum and `modified` flag equal to the specification over the rows seen, so the division is never reached with no sum |
| `RadiusNearestNeighbor.MetricAttacker` | sdmetrics/single_table/privacy/radius_nearest_neighbor.py:81-88 | the metric's attacker has p = 2 and cutoff 0.3, so its threshold is 0.09 before fitting; no CDFs, data or fields are fitted yet |
| `RadiusNearestNeighbor.SensitiveSum` | sdmetrics/single_table/privacy/radius_nearest_neighbor.py:47-51 | the accumulated sensitive vector has one entry per sensitive field |
| `RadiusNearestNeighbor.TotalWeightZeroIff` | sdmetrics/single_table/privacy/radius_nearest_neighbor.py:42-46 | with non-negative weights the total is non-negative, and it is 0 exactly when every synthetic row weighs 0 |
| `RadiusNearestNeighbor.SensitiveSumByColumn` | sdmetrics/single_table/privacy/radius_nearest_neighbor.py:47-51 | component j of the accumulated vector is the sum of sensitive column j over all rows |
| `RadiusNearestNeighbor.PredictionByComponent` | sdmetrics/single_table/privacy/radius_nearest_neighbor.py:53-56 | the prediction has one value per sensitive field; it is all zeros when the total weight is 0 (in particular with no rows), else column sum over ALL rows divided by the total weight |
| `RadiusNearestNeighbor.RaisingCutoffKeepsNeighbour` | sdmetrics/single_table/privacy/radius_nearest_neighbor.py:67-78 | with p, the fit history and distance fixed, a larger non-negative cutoff never turns weight 1 into 0 under the threshold cutoff**p × the fitted column counts |
| `RadiusNearestNeighbor.ExactMatchIsNeighbour` | sdmetrics/single_table/privacy/radius_nearest_neighbor.py:67-78 | distance 0 gets weight 1 whenever the cutoff is positive and every fit had at least one key column |
| `RadiusNearestNeighbor.NeighbourCountMonotone` | sdmetrics/single_table/privacy/radius_nearest_neighbor.py:76-78 | for a fixed query, a larger threshold never counts fewer synthetic rows as neighbours |
| `RadiusNearestNeighbor.PredictionNotWeightedMean` | sdmetrics/single_table/privacy/radius_nearest_neighbor.py:47-56 | with rows (k 0, s 10) and (k 5, s 20) and only the first within the radius, the code predicts 30 where the weighted mean is 10 |
| `RadiusNearestNeighbor.WeightedMeanWithinBounds` | sdmetrics/single_table/privacy/radius_nearest_neighbor.py:8-12 | the documented weighted mean lies, column by column, within any bounds that all synthetic rows obey |
| `RadiusNearestNeighbor.AllNeighboursPredictMean` | sdmetrics/single_table/privacy/radius_nearest_neighbor.py:38-56 | when every synthetic row has weight 1, the code's prediction equals the weighted mean, i.e. the plain mean |
| `MinimumVersions.GetMinimumVersions` | tasks.py:41-69 | returns the values of the dictionary `Fold` builds, in insertion order; the loop keeps the dictionary equal to the fold of the dependencies seen |
| `MinimumVersions.Fold` | tasks.py:42-67 | the dictionary keeps every name once in its order, and each entry pins its own name |
| `MinimumVersions.FirstMinimum` | tasks.py:56-57 | absent exactly when no specifier is `>=`/`==`; otherwise the version of the first such specifier |
| `MinimumVersions.VersionLessNegativelyTransitive` | tasks.py:65 | the version order is a strict weak order ("not less than" is transitive) |
| `MinimumVersions.TrailingZeroIgnored` | tasks.py:62 | versions differing by a trailing zero (1.0 and 1.0.0) compare equal |
| `MinimumVersions.UrlReplaces` | tasks.py:44-47 | a URL dependency records `name @ url`: a new name goes last, an earlier entry is replaced in its place, and other names are left alone |
| `MinimumVersions.SkippedRequirementIgnored` | tasks.py:50-53 | a requirement whose marker is false for the Python version contributes nothing, wherever it stands in the list |
| `MinimumVersions.FirstRequirementPins` | tasks.py:55-59 | the first requirement for a new name appends `name==v` with the first `>=`/`==` version, or records nothing without one |
| `MinimumVersions.RepinOnlyUpward` | tasks.py:61-67 | for a version-pinned name, an applicable requirement whose first `>=`/`==` version is strictly greater replaces the pin by that version; in every other case the pin stays. No other entry and not the key order change |
| `MinimumVersions.KeepsLargestMinimum` | tasks.py:55-67 | for a name no URL dependency mentions, every applicable requirement with a `>=`/`==` specifier leaves the final pin a version pin no lower than that specifier's version |
| `MinimumVersions.PinComesFromRequirement` | tasks.py:55-67 | every final version pin is the first `>=`/`==` version of some requirement for that name whose marker applies |
| `MinimumVersions.PinIsLargestMinimum` | tasks.py:55-67 | for a name no URL dependency mentions, the final pin is a version pin, equal to one applicable requirement's minimum and no lower than any: the pin is the largest minimum seen |
| `MinimumVersions.StepKeepsPins` | tasks.py:43-67 | one step keeps every name, keeps URL pins URL pins, and never lowers a version pin |
| `MinimumVersions.UrlPinPersists` | tasks.py:61 | once a name maps to a URL, only a later URL dependency for it changes the entry |
| `MinimumVersions.LastUrlWins` | tasks.py:44-61 | the last URL dependency for a name decides its entry, whatever versioned requirements follow |
| `MinimumVersions.PinnedVersionNeverDecreases` | tasks.py:61-67 | along the whole list, while a name stays version-pinned its version never falls below an earlier pin |
| `MinimumVersions.InsertionOrderKept` | tasks.py:42-69 | keys are only added at the end: any earlier key order is a prefix of the final one |
| `MinimumVersions.OnePinPerName` | tasks.py:69 | the output holds exactly one pin per name that has an entry |
| `MinimumVersions.StepAsWritten` | tasks.py:43-67 | one turn as written raises TypeError exactly when an applicable requirement with a `>=`/`==` specifier meets a version-pinned name; otherwise it does what the corrected turn does |
| `MinimumVersions.FoldAsWritten` | tasks.py:41-69 | the loop as written, stopping at the first TypeError; when it does not raise, it builds the same dictionary as the corrected fold |
| `MinimumVersions.AsWrittenFailsIff` | tasks.py:61-67 | the code as written raises exactly when some turn k, on the dictionary the turns before it built, reaches the comparison |
| `MinimumVersions.AsWrittenFailsOnSecondRequirement` | tasks.py:61-65 | two unconditional `>=` requirements for one package make the code as written raise TypeError, where the intended result pins the greater version |
| `PlotUtils.GetTableRelationshipsData` | sdmetrics/reports/multi_table/plot_utils.py:10-35 | the three columns have equal length and hold, position by position, the rows of `Rows` |
| `PlotUtils.RowCount` | sdmetrics/reports/multi_table/plot_utils.py:24-29 | the row count is the number of (metric, table pair) entries whose score is not NaN |
| `PlotUtils.RowsExactly` | sdmetrics/reports/multi_table/plot_utils.py:24-29 | a row exists exactly for each entry with a numeric score, labelled child → parent, with the outer key as metric and the score unchanged; no row's score is NaN |
| `PlotUtils.MetricRowsExactly` | sdmetrics/reports/multi_table/plot_utils.py:25-29 | the same, for the entries of one metric |
| `PlotUtils.MetricRowCount` | sdmetrics/reports/multi_table/plot_utils.py:25-29 | one metric contributes one row per entry with a numeric score |
| `PlotUtils.RowsAppend` | sdmetrics/reports/multi_table/plot_utils.py:24 | metrics are visited in order: the rows of concatenated breakdowns are the rows of each part, in turn |
| `PlotUtils.MetricRowsAppend` | sdmetrics/reports/multi_table/plot_utils.py:25 | table pairs are visited in order within a metric |

## Findings

| source | as written | input that shows it | evidently intended | confidence | as-written member | corrected member |
|---|---|---|---|---|---|---|
| sdmetrics/single_table/privacy/radius_nearest_neighbor.py:47-56 | every row's sensitive vector is added unweighted, then divided by the total weight | query key 0, threshold 1, rows (k 0, s 10) and (k 5, s 20): only the first is a neighbour, the prediction is 30 | the weighted mean of the class docstring (:10-12): 10, inside the rows' range | not executed | `RadiusNearestNeighbor.PredictionNotWeightedMean` | `RadiusNearestNeighbor.WeightedMeanWithinBounds` |
| tasks.py:61-67 | `new_version` is the specifier's version string, and `new_version > existing_version` compares a `str` with a `packaging` `Version`. Both sides return NotImplemented, so Python raises TypeError | dependencies `numpy>=1.21` and `numpy>=1.23` (no markers) | compare the two versions and keep the greater, 1.23 | not executed | `MinimumVersions.AsWrittenFailsOnSecondRequirement` | `MinimumVersions.RepinOnlyUpward` |

The first row is special:

- The attacker class itself (`Predict`, `Prediction`) keeps the code's arithmetic, because the privacy scores the repository reports are computed with it.
- The corrected definition, `WeightedMean`, stands beside it. `AllNeighboursPredictMean` shows the two agree whenever every synthetic row is a neighbour.

For the second row, `GetMinimumVersions` and every lemma about `Fold` use the corrected comparison. `StepAsWritten` and `FoldAsWritten` model the code as written. `FoldAsWritten`'s contract shows the two differ only by raising, and `AsWrittenFailsIff` says exactly when it raises.

## Left out

- The inverse-CDF distance (`InverseCDFDistance.fit`/`measure`, loss.py) is not part of this model. It is the injected `Distance`, and a fit is recorded as the table and columns it was made on.
- The privacy base classes (`PrivacyAttackerModel`, `NumericalPrivacyMetric`, base.py) are not part of this model. That covers field-split sampling, scoring predictions against real data and aggregating scores.
- NumericalRadiusNearestNeighborAttacker.constructor: the weight function class is always `InverseCDFCutoff`, the only one in the modelled source. `Prediction` and its lemmas still take the weight as any function.
- The attacker's unused `key` attribute is not modelled.
- InverseCdfCutoff.constructor: `p` is a natural-number exponent. A float exponent and floating-point rounding of `cutoff**p` are not modelled.
- NumericalRadiusNearestNeighborAttacker.Predict: requires a prior `Fit`. Without one, Python raises TypeError on `len(None)`. That error is not reproduced.
- NumericalRadiusNearestNeighborAttacker.Predict: requires every synthetic row to hold every key and sensitive field. With a missing column, pandas raises KeyError. That error is not reproduced.
- NumericalRadiusNearestNeighborAttacker.Predict: vectors are values, so the `.copy()` of the first row cannot be told apart from aliasing. That `Predict` changes no field follows from it having no `modifies` clause.
- Requirement parsing, marker evaluation and `Version` parsing (packaging) are replaced by the `Dependency` datatype. Pre-, post-, dev- and local-release parts and epochs of versions are not modelled.
- Wildcard `==` specifiers (`foo==1.*`) are not modelled. A version is a sequence of numbers. As written, such a specifier is pinned as the text `foo==1.*`, and any later requirement for that name whose marker applies (or that has no marker) then raises InvalidVersion at tasks.py:62. `FoldAsWritten` does not capture that error.
- The specifiers of a requirement are taken in the order the specifier set yields them, which packaging does not fix.
- GetMinimumVersions: pins are structured values (`UrlPin`, `VersionPin`) rather than the strings `name @ url` and `name==version`. A pinned version keeps its numeric components, not the text it was written with.
- GetMinimumVersions: a dependency containing `@` that does not split into exactly two parts at ` @ ` (a ValueError in Python) cannot be expressed.
- The other tasks in tasks.py (`check_dependencies`, `unit`, `integration`, `install_minimum`, `minimum`, `readme`, `tutorials`, `lint`, `remove_readonly`, `rmdir`) run shell commands or touch files.
- `get_table_relationships_plot` (plot_utils.py:38-74) is plotly rendering plus a rounded pandas mean.
- GetTableRelationshipsData: dictionaries are sequences of items in iteration order. Unique keys are not required, and the result is the three columns rather than a DataFrame.
- setup.py and the unit tests of `InterRowMSAS` and `sdmetrics.utils` are not part of this model. Their code under test is not among the modelled files.
