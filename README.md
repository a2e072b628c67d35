# Hotel-booking analysis utilities: a Dafny model of the decision and cleaning rules

The repository analyses a hotel-booking dataset with pandas and scipy. This project models the
layer of exact rules around the numerical libraries, in two source files:

- `src/utils_stats.py` (modules `Stats` in `stats.dfy` and `BusinessMetrics` in `business.dfy`)
  covers the following:
  - the four effect-size classifiers;
  - the significance flag;
  - the contingency table behind the chi-square test, and Cramér's V with its degenerate guard;
  - the choice between the equal-variance t-test, Welch's t-test and Mann-Whitney U;
  - Cohen's d with its zero guard;
  - the ANOVA groups and eta squared with its zero guard;
  - the clipped proportion confidence interval;
  - per-group cancellation metrics sorted by rate;
  - the feature-importance ranking;
  - the business summary (rates, average price, revenue lost to cancellations, occupancy).
- `src/utils_io.py` (module `DataIO` in `io.dfy`) covers the following:
  - the integer coercion performed on loading;
  - the derived columns (guest and night totals, right-closed lead-time and stay buckets, season,
    and 0/1 flags);
  - the `clean_data` filter chain with first-occurrence deduplication;
  - the data-quality report.

`common.dfy` (module `Common`) holds the sequence vocabulary shared by the models:
- `Option`, in which a pandas NaN is `None`;
- `Filter` for boolean-mask selection;
- `Distinct` for `drop_duplicates` and `unique`;
- `Subseq` for order-preserving selection;
- `SortByDesc` for `sort_values(ascending=False)`;
- a tagged `Column` that replaces pandas dtype dispatch.

All arithmetic is over exact `real`. Every scipy and numpy routine is a field of the record
`Stats.SciPy`: `sqrt`, `chi2_contingency`, `shapiro`, `levene`, `ttest_ind`, `mannwhitneyu`,
`f_oneway`, `pointbiserialr`, `median` and `norm.ppf`. The model applies these routines but never
interprets them. A lemma that needs a fact about one of them takes it as a predicate on the record:
- `SqrtIsRoot`: the square root is a genuine non-negative root;
- `Chi2NonNegative`: the chi-square statistic is non-negative;
- `ZScore(...) >= 0`: the normal quantile used is non-negative.

Where the source updates state step by step, the model does the same:
- `load_hotel_data` rewrites columns of a frame object in place (`DataIO.RawFrame`);
- `create_derived_features` adds columns one after another to a fresh copy (`DataIO.DerivedFrame`);
- the ANOVA, cancellation-metrics, feature-importance, business-metrics and quality-report
  routines build their results in loops, and each loop is proved against a specification function.

`perform_anova` takes its grand mean over every present value of the numeric column, including
rows whose group key is missing, while the groups hold only the keyed rows. Eta squared stays in
[0, 1] for any reference mean (`Stats.EtaSquaredInUnitInterval`). It is not 0 merely because the
groups agree, though. Take two groups each holding the value 1 and one ungrouped row holding 4.
The grand mean is 2, SS_between and SS_total are both 2, and eta squared is 1
(`Stats.UngroupedRowShiftsEtaSquared`).

## Model

| member | source | states |
|---|---|---|
| Stats.InterpretCramersV | src/utils_stats.py:55-76 | the label's rank is the number of the cut points 0.1, 0.3, 0.5 at or below v |
| Stats.InterpretCohensD | src/utils_stats.py:154-175 | the label's rank is the number of the cut points 0.2, 0.5, 0.8 at or below d |
| Stats.InterpretEtaSquared | src/utils_stats.py:235-256 | the label's rank is the number of the cut points 0.01, 0.06, 0.14 at or below eta² |
| Stats.InterpretImportanceScore | src/utils_stats.py:369-392 | the label's rank is the number of the cut points 0.1, 0.3, 0.5, 0.7 at or below the score |
| Stats.ReachedMonotone | src/utils_stats.py:69-76 | a step classifier never gives a larger value a lower label |
| Stats.ReachedAtCut | src/utils_stats.py:69-76 | a value equal to the k-th cut point gets rank k+1, so every boundary gets the higher label |
| Stats.ClassifiersMonotone | src/utils_stats.py:383-392 | all four classifiers are monotone |
| Stats.ClassifiersAtBoundaries | src/utils_stats.py:168-175 | in all four classifiers each boundary value gets the higher of its two labels |
| Stats.Crosstab | src/utils_stats.py:30 | a table with at least one row label has a positive total |
| Stats.CrosstabCounts | src/utils_stats.py:30-36 | labels are distinct and cover the complete rows; cell (a,b) counts rows with var1=a and var2=b; n is the number of rows with both values present |
| Stats.CramersV | src/utils_stats.py:37-38 | V is 0 when min(rows, cols) - 1 is not positive, that is for a single row or column |
| Stats.CramersVInUnitInterval | src/utils_stats.py:38 | V lies in [0,1] when 0 <= chi2 <= n·min_dim |
| Stats.PerformChiSquareTest | src/utils_stats.py:11-53 | the result holds the scipy outputs for the crosstab, V from n and min_dim, is_significant iff p < 0.05, and the label of V |
| Stats.ChiSquareCramersVBounds | src/utils_stats.py:35-38 | the test's V is non-negative, and at most 1 when chi2 <= n·min_dim |
| Stats.NormalityP | src/utils_stats.py:105-106 | a sample of size 5000 or more is given p = 1; a smaller one gets Shapiro's p |
| Stats.ChooseTestCases | src/utils_stats.py:111-126 | Mann-Whitney iff a normality p is at most 0.05 (0 included); otherwise equal-variance iff Levene p > 0.05, else Welch |
| Stats.LargeSamplesSkipNormality | src/utils_stats.py:105-121 | two samples of at least 5000 never force Mann-Whitney; the equal-variance test is chosen iff Levene p > 0.05 |
| Stats.CohensD | src/utils_stats.py:132 | d = 0 when pooled_std <= 0; otherwise d·pooled_std = mean1 - mean2 and sign(d) = sign(mean1 - mean2) |
| Stats.PooledStdNonNegative | src/utils_stats.py:131 | pooled_std = sqrt((s1²+s2²)/2) is non-negative |
| Stats.PerformTTest | src/utils_stats.py:78-152 | group sizes, the test chosen and its outputs, the means and stds, d from the pooled std, the label of abs(d), and is_significant iff p < 0.05 |
| Stats.TTestEffectSign | src/utils_stats.py:129-132 | d is 0 or has the sign of mean1 - mean2, and is 0 when the means are equal |
| Stats.GroupNames | src/utils_stats.py:198-200 | the groups are the distinct present keys, each once |
| Stats.GroupNamesCount | src/utils_stats.py:232 | n_groups equals the number of distinct present group values |
| Stats.GroupBetweenAtMostTotal | src/utils_stats.py:207-208 | for any reference mean, one group's len·(mean-c)² is at most its squared deviations from c |
| Stats.BetweenAtMostTotal | src/utils_stats.py:207-208 | SS_between <= SS_total for any reference mean |
| Stats.EtaSquared | src/utils_stats.py:209 | eta² = 0 when SS_total = 0; otherwise eta²·SS_total = SS_between |
| Stats.EtaSquaredInUnitInterval | src/utils_stats.py:205-209 | eta² lies in [0,1] |
| Stats.UngroupedRowShiftsEtaSquared | src/utils_stats.py:198-209 | rows (1,1.0), (2,1.0), (missing,4.0): grand mean 2 from all present values, groups [1.0] and [1.0] from keyed rows only, eta² = 1 |
| Stats.StatOf | src/utils_stats.py:216-222 | a group_stats row has n equal to the group's non-missing count, and its mean; std is defined from two values and is then the sample std, median is defined from one |
| Stats.GroupStats | src/utils_stats.py:216-222 | one group_stats row per group, in group order |
| Stats.PerformAnova | src/utils_stats.py:177-233 | for at least two groups: n_groups is the number of distinct keys; the groups are each key's present values; group_stats per group; F and p from f_oneway; eta² in [0,1]; is_significant iff p < 0.05; its label |
| Stats.Clip | src/utils_stats.py:320-321 | the clipped interval lies in [0,1], contains p for a non-negative half-width, and is (p,p) for half-width 0 |
| Stats.ProportionCI | src/utils_stats.py:313-323 | total = 0 gives exactly (0,0); the bounds always lie within [0,1] |
| Stats.HalfWidthNonNegative | src/utils_stats.py:317-318 | z·se is non-negative for z >= 0 |
| Stats.ProportionCIBounds | src/utils_stats.py:316-323 | for z >= 0: 0 <= lower <= successes/total <= upper <= 1 |
| Stats.ProportionCIDegenerate | src/utils_stats.py:316-323 | no successes or all successes give the degenerate interval (p, p) |
| Stats.KeyCount | src/utils_stats.py:274-276 | a group's count is positive iff some row has that key |
| Stats.CanceledSumBounds | src/utils_stats.py:274-276 | with 0/1 flags, 0 <= cancellations <= count |
| Stats.MetricsRow | src/utils_stats.py:274-288 | cancelaciones and total_reservas are the group's flag sum and row count, tasa_cancelacion = cancelaciones / total_reservas, no_canceladas = total - cancelaciones, tasa_confirmacion = 1 - tasa_cancelacion, and the CI from calculate_proportion_ci |
| Stats.CalculateCancellationMetrics | src/utils_stats.py:258-293 | one metrics row per group, exactly the rows of the present groups, ordered by non-increasing tasa_cancelacion |
| Stats.CancellationRowBounds | src/utils_stats.py:279-288 | with 0/1 flags and z >= 0, 0 <= ci_lower <= rate <= ci_upper <= 1 and the confirmation rate lies in [0,1] |
| Stats.NumericScore | src/utils_stats.py:353-354 | a numeric feature's score is the absolute correlation after median fill, so it is non-negative |
| Stats.ScoreFeature | src/utils_stats.py:345-362 | a categorical column is scored by Cramér's V and any other by correlation, labelled by interpret_importance_score |
| Stats.AnalyzeFeatureImportance | src/utils_stats.py:325-367 | for at least one feature: exactly one row per feature, a permutation of the scored rows, ordered by non-increasing score |
| Stats.RankedRowsLabelled | src/utils_stats.py:357-365 | every feature's row is ranked, every ranked row carries its score's label, and scores are non-negative |
| Stats.FeatureScoreNonNegative | src/utils_stats.py:345-355 | every importance score is non-negative |
| BusinessMetrics.PositiveAdrs | src/utils_stats.py:414 | the averaged prices are the adr values of exactly the rows with adr > 0, in row order, each positive |
| BusinessMetrics.HotelRows | src/utils_stats.py:418 | a hotel's rows are every copy of each row whose hotel equals it, in row order; a missing hotel selects none |
| BusinessMetrics.CalculateBusinessMetrics | src/utils_stats.py:394-432 | the snapshot: count, rates, averages, one entry per distinct hotel value, revenue loss only when both columns exist, and occupancy |
| BusinessMetrics.Occupancy | src/utils_stats.py:430 | occupancy is 0 when total nights <= 0 |
| BusinessMetrics.NightsBounds | src/utils_stats.py:428-429 | with non-negative stays and 0/1 flags, 0 <= canceled nights <= total nights |
| BusinessMetrics.OccupancyInUnitInterval | src/utils_stats.py:427-430 | occupancy lies in [0,1] with non-negative nights and 0/1 flags |
| BusinessMetrics.RevenueLossOnlyCanceled | src/utils_stats.py:423-425 | the revenue loss sums adr·nights over canceled rows only |
| BusinessMetrics.RevenueLossNonNegative | src/utils_stats.py:423-425 | with non-negative prices and stays the loss is non-negative |
| BusinessMetrics.AvgAdrPositive | src/utils_stats.py:414 | the average price, when defined, is positive because it averages positive prices only |
| BusinessMetrics.CancellationRateInUnitInterval | src/utils_stats.py:412 | the cancellation rate lies in [0,1] for 0/1 flags |
| BusinessMetrics.MissingHotelHasNoRate | src/utils_stats.py:417-420 | a missing hotel value gets undefined rate and price |
| DataIO.TruncateTowardZero | src/utils_io.py:44 | the integer cast truncates toward zero |
| DataIO.CoerceInt | src/utils_io.py:44 | a number is truncated; a missing or unparseable value becomes 0 |
| DataIO.CoerceColumn | src/utils_io.py:44 | every cell of a coerced column is the coercion of the original cell |
| DataIO.RawFrame.CoerceColumns | src/utils_io.py:42-44 | every listed column that exists is coerced in place; every other column is unchanged; the column list still names exactly the cell columns |
| DataIO.RawFrame.CoerceIntColumns | src/utils_io.py:37-44 | every existing column named in int_cols is coerced in place; every other column is unchanged |
| DataIO.CoerceIdempotent | src/utils_io.py:44 | coercing a coerced column changes nothing |
| DataIO.CoercedColumnIsIntegral | src/utils_io.py:37-44 | after loading every cell holds an integer; missing or unparseable cells hold 0 |
| DataIO.BinIndexFindsBin | src/utils_io.py:102-107 | the bin index found is the unique right-closed bin (e_k, e_k+1] holding x |
| DataIO.LeadTimeBucketSpec | src/utils_io.py:102-107 | (0,7] gives '0-7', ..., above 365 gives '>365'; zero, negative or missing gives no bucket |
| DataIO.StayDurationSpec | src/utils_io.py:139-144 | (0,1] gives '1 night', ..., above 14 gives '>14 nights'; zero nights gives none |
| DataIO.SeasonMapDomain | src/utils_io.py:121-127 | exactly the twelve month names have a season; anything else maps to missing |
| DataIO.ThreeMonthsPerSeason | src/utils_io.py:121-126 | each season has exactly three distinct months |
| DataIO.IsCityHotel | src/utils_io.py:110 | 1 exactly for 'City Hotel', 0 otherwise |
| DataIO.IsFamily | src/utils_io.py:113 | 1 exactly when children (missing as 0) or babies are positive, 0 otherwise |
| DataIO.RoomTypeDiff | src/utils_io.py:116-118 | 1 exactly when the text forms differ; two missing room types compare equal |
| DataIO.DerivedFrame.Copy | src/utils_io.py:93 | the copy holds the input rows and no derived column |
| DataIO.DerivedFrame.AddCounts | src/utils_io.py:95-99 | total_guests and total_stay_nights per row; nothing else changes |
| DataIO.DerivedFrame.AddCategories | src/utils_io.py:101-144 | lead-time bucket, season and stay category per row; nothing else changes |
| DataIO.DerivedFrame.AddFlags | src/utils_io.py:109-118 | is_city_hotel, is_family and, when both room types exist, room_type_diff; nothing else changes |
| DataIO.CreateDerivedFeatures | src/utils_io.py:79-146 | a fresh frame holds the unchanged input rows and every derived column row by row |
| DataIO.FillChildren | src/utils_io.py:212 | the filled row has children present, 0 where it was missing |
| DataIO.StagesAreOneMask | src/utils_io.py:205-220 | the successive filters and the fill equal one mask followed by the fill |
| DataIO.CleanData | src/utils_io.py:183-227 | the result is the deduplicated rows that pass the mask, with children filled |
| DataIO.CleanedRowsValid | src/utils_io.py:206-220 | every kept row has 0 <= adr < 5000, children present, guests > 0 and nights > 0 |
| DataIO.CleanedMembers | src/utils_io.py:203-220 | a row is kept iff some input row passes the mask and fills to it |
| DataIO.CleanedIsOrderedSelection | src/utils_io.py:203-220 | the output is an order-preserving subsequence of the input, up to the children fill |
| DataIO.CleanedMayRepeatRows | src/utils_io.py:203-212 | two rows differing only in missing vs 0 children both survive and become equal |
| DataIO.CleanedRowsHaveStayCategory | src/utils_io.py:218-220 | every cleaned row has a stay-duration category |
| DataIO.MissingPlusPresent | src/utils_io.py:165 | missing cells plus present values make up the column |
| DataIO.Percent | src/utils_io.py:166 | a percentage is defined exactly when the frame has rows |
| DataIO.Minimum | src/utils_io.py:178 | the minimum is a value of the column and at most every value |
| DataIO.Maximum | src/utils_io.py:179 | the maximum is a value of the column and at least every value |
| DataIO.BaseRow | src/utils_io.py:162-169 | a report row holds the name, missing and unique counts and their percentages, with no statistics |
| DataIO.WithStats | src/utils_io.py:173-179 | the numeric statistics: mean of present values, min and max among them, the sample std from two values; counts and the numeric flag unchanged |
| DataIO.GetDataQualityReport | src/utils_io.py:148-181 | one row per column, a permutation of the column rows, ordered by non-increasing pct_missing |
| DataIO.ReportRowBounds | src/utils_io.py:162-169 | n_missing <= rows, n_unique <= rows - n_missing, and both percentages lie in [0,100] |
| Common.DistinctIsSubseq | src/utils_io.py:203 | deduplication keeps an order-preserving subsequence |
| Common.DistinctKeepsFirstOccurrence | src/utils_io.py:203 | the kept copies are ordered by their first occurrences |
| Common.FilterIsSubseq | src/utils_io.py:208 | mask selection keeps an order-preserving subsequence |
| Common.FilterCounts | src/utils_stats.py:418 | mask selection keeps every copy of each accepted row and no copy of a rejected one |
| Common.SortByDesc | src/utils_stats.py:291 | the sort is a permutation in non-increasing key order |

## Left out

- Numerical libraries: scipy (`chi2_contingency`, `shapiro`, `levene`, `ttest_ind`, `mannwhitneyu`,
  `f_oneway`, `pointbiserialr`, `norm.ppf`), `np.sqrt` and pandas `median` are parameters of the
  model. Nothing is proved about their values beyond what a lemma takes as a hypothesis.
- Floating point, NaN propagation and rounding: the arithmetic is exact. The `.round(2)` of the
  quality report and the `p=...:.4f` formatting are not modelled. The Spanish interpretation
  sentences of the three tests are not modelled; the flag they are built from is.
- `adr_category` (`pd.qcut` with `duplicates='drop'`, src/utils_io.py:130-136) is not modelled,
  because its edges depend on pandas' quantile rules.
- pandas dtype dispatch is replaced by the declared column tag `Common.Column`.
- I/O is not modelled: `read_csv`, the categorical and float conversions, `to_datetime`,
  `load_data_dictionary`, `save_processed_data` and the verbose printing of `clean_data`.
- src/utils_viz.py (chart rendering) and src/generate_presentation.py (slide assembly) are not part
  of this model.
- Stats.GroupNames: pandas sorts group and crosstab labels, but the model lists them by first
  occurrence. The order of `group_stats`, of the crosstab axes and of tied metric rows can
  therefore differ. The counts, V, eta² and the rate ordering do not depend on it.
- Stats.GroupBetween: a group whose values are all missing contributes 0 to SS_between, where
  pandas would produce NaN.
- Stats.PerformChiSquareTest: the errors scipy raises on degenerate tables, such as one without
  complete rows, are not modelled. The foreign result is taken as given.
- Stats.CalculateCancellationMetrics: group keys are plain values, grouped as pandas does with
  `observed=True`. Columns cast to `category` on loading (src/utils_io.py:26-33) and the `pd.cut`
  buckets are categorical. For these, `groupby` with the default `observed=False` (pandas before
  3.0) also emits a row for each unobserved category: 0 bookings, a NaN rate and the interval
  (0, 0), sorted last. Those rows are not modelled.
- Stats.GroupNames: for the same reason, the groups come only from observed keys. An unobserved
  category of a categorical key yields no empty group here, so `Stats.PerformAnova` counts observed
  groups rather than categories in `n_groups`.
- Stats.PerformAnova: requires at least two groups. With fewer, `f_oneway` raises and the routine
  returns nothing, so the error path has no result to model.
- Stats.AnalyzeFeatureImportance: requires at least one feature. With none, the scores frame has no
  `importance_score` column and `sort_values` raises `KeyError`.
- Stats.PerformTTest: requires at least three present values per group, as Shapiro-Wilk needs.
- DataIO.CoerceInt: does not model the 32-bit wrap-around of `astype('int32')` or infinite
  values, because exact integers are used.
- DataIO.GetDataQualityReport: does not model duplicate column names. `report.loc` would write
  every row with that name, and `df[col]` would not be a single column.
- BusinessMetrics.CalculateBusinessMetrics: the per-hotel entries are a map keyed by the hotel
  value rather than the text keys `'{hotel}_cancellation_rate'`. A missing hotel value is one key.
