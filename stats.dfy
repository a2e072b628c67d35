/** The decision and bookkeeping layer of the statistical-testing utilities
    (src/utils_stats.py). Every scipy/numpy routine the module calls is a
    field of `SciPy` and is only applied, never interpreted; what the
    module computes around those calls is modelled over exact reals. */
module Stats {
  import opened Common

  /** Significance level used by every test. */
  const Alpha: real := 0.05

  datatype Chi2Out = Chi2Out(chi2: real, pValue: real, dof: int)

  datatype TestOut = TestOut(statistic: real, pValue: real)

  /** The foreign numerics: `np.sqrt`, `chi2_contingency`, `shapiro`, `levene`,
      `ttest_ind`, `mannwhitneyu`, `f_oneway`, `pointbiserialr`, pandas `median`
      and `norm.ppf`. `chi2Contingency` sees only the count matrix, as scipy does. */
  datatype SciPy = SciPy(
    sqrt: real -> real,
    chi2Contingency: seq<seq<nat>> -> Chi2Out,
    shapiro: seq<real> -> real,
    levene: (seq<real>, seq<real>) -> real,
    ttestInd: (seq<real>, seq<real>, bool) -> TestOut,
    mannWhitneyU: (seq<real>, seq<real>) -> TestOut,
    fOneway: seq<seq<real>> -> TestOut,
    pointBiserialR: (seq<real>, seq<real>) -> real,
    median: seq<real> -> real,
    normPpf: real -> real)

  /** `np.sqrt` returns the non-negative square root of a non-negative argument,
      exactly 0 for 0. */
  ghost predicate SqrtIsRoot(lib: SciPy) {
    && lib.sqrt(0.0) == 0.0
    && forall x :: 0.0 <= x ==> 0.0 <= lib.sqrt(x) && lib.sqrt(x) * lib.sqrt(x) == x
  }

  /** The chi-square statistic is never negative. */
  ghost predicate Chi2NonNegative(lib: SciPy) {
    forall t :: lib.chi2Contingency(t).chi2 >= 0.0
  }

  function IsSignificant(p: real): bool { p < Alpha }

  // ---------------------------------------------------------------------------
  // Effect-size classifiers

  datatype Effect = Negligible | Small | Medium | Large {
    function Rank(): nat {
      match this
      case Negligible => 0
      case Small => 1
      case Medium => 2
      case Large => 3
    }
    function Text(): string {
      match this
      case Negligible => "Efecto despreciable"
      case Small => "Efecto pequeño"
      case Medium => "Efecto mediano"
      case Large => "Efecto grande"
    }
  }

  datatype Importance = VeryLow | Low | Moderate | High | VeryHigh {
    function Rank(): nat {
      match this
      case VeryLow => 0
      case Low => 1
      case Moderate => 2
      case High => 3
      case VeryHigh => 4
    }
    function Text(): string {
      match this
      case VeryLow => "Muy baja"
      case Low => "Baja"
      case Moderate => "Moderada"
      case High => "Alta"
      case VeryHigh => "Muy alta"
    }
  }

  /** How many cut points `v` has reached: the rank of the label a step
      classifier with these cut points gives `v` (a cut point itself counts). */
  function Reached(cuts: seq<real>, v: real): (k: nat)
    ensures k <= |cuts|
  {
    if cuts == [] then 0 else (if cuts[0] <= v then 1 else 0) + Reached(cuts[1..], v)
  }

  ghost predicate StrictlyIncreasing(cuts: seq<real>) {
    forall i, j :: 0 <= i < j < |cuts| ==> cuts[i] < cuts[j]
  }

  const CramersVCuts: seq<real> := [0.1, 0.3, 0.5]
  const CohensDCuts: seq<real> := [0.2, 0.5, 0.8]
  const EtaSquaredCuts: seq<real> := [0.01, 0.06, 0.14]
  const ImportanceCuts: seq<real> := [0.1, 0.3, 0.5, 0.7]

  lemma ReachedThree(a: real, b: real, c: real, v: real)
    ensures Reached([a, b, c], v) == (if a <= v then 1 else 0) + (if b <= v then 1 else 0) + (if c <= v then 1 else 0)
  {
    assert [c][1..] == [];
    assert Reached([c], v) == (if c <= v then 1 else 0);
    assert [b, c][1..] == [c];
    assert Reached([b, c], v) == (if b <= v then 1 else 0) + Reached([c], v);
    assert [a, b, c][1..] == [b, c];
  }

  lemma ReachedFour(a: real, b: real, c: real, d: real, v: real)
    ensures Reached([a, b, c, d], v) == (if a <= v then 1 else 0) + Reached([b, c, d], v)
  {
    assert [a, b, c, d][1..] == [b, c, d];
  }

  function InterpretCramersV(v: real): (e: Effect)
    ensures e.Rank() == Reached(CramersVCuts, v)
  {
    ReachedThree(0.1, 0.3, 0.5, v);
    if v < 0.1 then Negligible
    else if v < 0.3 then Small
    else if v < 0.5 then Medium
    else Large
  }

  function InterpretCohensD(d: real): (e: Effect)
    ensures e.Rank() == Reached(CohensDCuts, d)
  {
    ReachedThree(0.2, 0.5, 0.8, d);
    if d < 0.2 then Negligible
    else if d < 0.5 then Small
    else if d < 0.8 then Medium
    else Large
  }

  function InterpretEtaSquared(eta2: real): (e: Effect)
    ensures e.Rank() == Reached(EtaSquaredCuts, eta2)
  {
    ReachedThree(0.01, 0.06, 0.14, eta2);
    if eta2 < 0.01 then Negligible
    else if eta2 < 0.06 then Small
    else if eta2 < 0.14 then Medium
    else Large
  }

  function InterpretImportanceScore(score: real): (i: Importance)
    ensures i.Rank() == Reached(ImportanceCuts, score)
  {
    ReachedFour(0.1, 0.3, 0.5, 0.7, score);
    ReachedThree(0.3, 0.5, 0.7, score);
    if score < 0.1 then VeryLow
    else if score < 0.3 then Low
    else if score < 0.5 then Moderate
    else if score < 0.7 then High
    else VeryHigh
  }

  /** A step classifier is monotone: a larger value never gets a lower label. */
  lemma {:induction false} ReachedMonotone(cuts: seq<real>, v: real, w: real)
    requires v <= w
    ensures Reached(cuts, v) <= Reached(cuts, w)
  {
    if cuts != [] {
      ReachedMonotone(cuts[1..], v, w);
    }
  }

  /** Below the first cut point the rank is 0 (the lowest label). */
  lemma {:induction false} ReachedBelowFirst(cuts: seq<real>, v: real)
    requires StrictlyIncreasing(cuts) && (cuts == [] || v < cuts[0])
    ensures Reached(cuts, v) == 0
  {
    if cuts != [] {
      ReachedBelowFirst(cuts[1..], v);
    }
  }

  /** A value equal to the k-th cut point gets rank k + 1: every boundary value
      gets the higher of the two labels it separates, and every label is reached. */
  lemma {:induction false} ReachedAtCut(cuts: seq<real>, k: nat)
    requires StrictlyIncreasing(cuts) && k < |cuts|
    ensures Reached(cuts, cuts[k]) == k + 1
  {
    if k == 0 {
      ReachedBelowFirst(cuts[1..], cuts[0]);
    } else {
      ReachedAtCut(cuts[1..], k - 1);
    }
  }

  lemma CutsStrictlyIncreasing()
    ensures StrictlyIncreasing(CramersVCuts) && StrictlyIncreasing(CohensDCuts)
    ensures StrictlyIncreasing(EtaSquaredCuts) && StrictlyIncreasing(ImportanceCuts)
  {
  }

  /** All four classifiers are monotone in their argument. */
  lemma ClassifiersMonotone(v: real, w: real)
    requires v <= w
    ensures InterpretCramersV(v).Rank() <= InterpretCramersV(w).Rank()
    ensures InterpretCohensD(v).Rank() <= InterpretCohensD(w).Rank()
    ensures InterpretEtaSquared(v).Rank() <= InterpretEtaSquared(w).Rank()
    ensures InterpretImportanceScore(v).Rank() <= InterpretImportanceScore(w).Rank()
  {
    ReachedMonotone(CramersVCuts, v, w);
    ReachedMonotone(CohensDCuts, v, w);
    ReachedMonotone(EtaSquaredCuts, v, w);
    ReachedMonotone(ImportanceCuts, v, w);
  }

  /** Each cut point gets the higher label, for all four classifiers. */
  lemma ClassifiersAtBoundaries(k: nat)
    ensures k < 3 ==> InterpretCramersV(CramersVCuts[k]).Rank() == k + 1
    ensures k < 3 ==> InterpretCohensD(CohensDCuts[k]).Rank() == k + 1
    ensures k < 3 ==> InterpretEtaSquared(EtaSquaredCuts[k]).Rank() == k + 1
    ensures k < 4 ==> InterpretImportanceScore(ImportanceCuts[k]).Rank() == k + 1
  {
    CutsStrictlyIncreasing();
    if k < 3 {
      ReachedAtCut(CramersVCuts, k);
      ReachedAtCut(CohensDCuts, k);
      ReachedAtCut(EtaSquaredCuts, k);
    }
    if k < 4 {
      ReachedAtCut(ImportanceCuts, k);
    }
  }

  // ---------------------------------------------------------------------------
  // perform_chi_square_test: the contingency table and Cramér's V

  /** `pd.crosstab(df[var1], df[var2])`: distinct labels of each variable and one count per pair. */
  datatype Table<A, B> = Table(rowLabels: seq<A>, colLabels: seq<B>, cells: seq<seq<nat>>)

  /** Rows where var1 = a and var2 = b (a missing value never equals a label). */
  function CountPair<A(==), B(==)>(rows: seq<(Option<A>, Option<B>)>, a: A, b: B): nat {
    if rows == [] then 0
    else (if rows[0] == (Some(a), Some(b)) then 1 else 0) + CountPair(rows[1..], a, b)
  }

  /** The rows crosstab counts: both values present. */
  function Complete<A(==,!new), B(==,!new)>(rows: seq<(Option<A>, Option<B>)>): (r: seq<(A, B)>)
    ensures |r| <= |rows|
  {
    if rows == [] then []
    else if rows[0].0.Some? && rows[0].1.Some? then [(rows[0].0.value, rows[0].1.value)] + Complete(rows[1..])
    else Complete(rows[1..])
  }

  function Firsts<A, B>(ps: seq<(A, B)>): (r: seq<A>)
    ensures |r| == |ps| && forall i :: 0 <= i < |ps| ==> r[i] == ps[i].0
  {
    if ps == [] then [] else [ps[0].0] + Firsts(ps[1..])
  }

  function Seconds<A, B>(ps: seq<(A, B)>): (r: seq<B>)
    ensures |r| == |ps| && forall i :: 0 <= i < |ps| ==> r[i] == ps[i].1
  {
    if ps == [] then [] else [ps[0].1] + Seconds(ps[1..])
  }

  function RowCells<A(==), B(==)>(rows: seq<(Option<A>, Option<B>)>, a: A, bs: seq<B>): (r: seq<nat>)
    ensures |r| == |bs| && forall j :: 0 <= j < |bs| ==> r[j] == CountPair(rows, a, bs[j])
  {
    if bs == [] then [] else [CountPair(rows, a, bs[0])] + RowCells(rows, a, bs[1..])
  }

  function Cells<A(==), B(==)>(rows: seq<(Option<A>, Option<B>)>, as_: seq<A>, bs: seq<B>): (r: seq<seq<nat>>)
    ensures |r| == |as_| && forall i :: 0 <= i < |as_| ==> r[i] == RowCells(rows, as_[i], bs)
  {
    if as_ == [] then [] else [RowCells(rows, as_[0], bs)] + Cells(rows, as_[1..], bs)
  }

  function SumNat(xs: seq<nat>): nat {
    if xs == [] then 0 else xs[0] + SumNat(xs[1..])
  }

  function SumRows(m: seq<seq<nat>>): nat {
    if m == [] then 0 else SumNat(m[0]) + SumRows(m[1..])
  }

  /** `contingency_table.sum().sum()`. */
  function TableTotal<A, B>(t: Table<A, B>): nat {
    SumRows(t.cells)
  }

  /** `min(contingency_table.shape) - 1`. */
  function MinDim<A, B>(t: Table<A, B>): int {
    MinInt(|t.rowLabels|, |t.colLabels|) - 1
  }

  lemma {:induction false} RowCellsUnfold<A, B>(rows: seq<(Option<A>, Option<B>)>, a: A, bs: seq<B>)
    requires rows != [] && NoDup(bs)
    ensures SumNat(RowCells(rows, a, bs)) == SumNat(RowCells(rows[1..], a, bs))
      + (if rows[0].0 == Some(a) && rows[0].1.Some? && rows[0].1.value in bs then 1 else 0)
  {
    if bs != [] {
      var b, tail, rest := bs[0], bs[1..], rows[1..];
      NoDupTail(bs);
      RowCellsUnfold(rows, a, tail);
      // the cell for `b` gains this row exactly when it is (a, b)
      var here := if rows[0] == (Some(a), Some(b)) then 1 else 0;
      assert CountPair(rows, a, b) == here + CountPair(rest, a, b);
      assert RowCells(rows, a, bs) == [CountPair(rows, a, b)] + RowCells(rows, a, tail);
      assert RowCells(rest, a, bs) == [CountPair(rest, a, b)] + RowCells(rest, a, tail);
      SumNatCons(CountPair(rows, a, b), RowCells(rows, a, tail));
      SumNatCons(CountPair(rest, a, b), RowCells(rest, a, tail));
      // and the cells of `tail` gain it exactly when its value is elsewhere in `bs`
      InHeadOrTail(bs, rows[0].1);
    }
  }

  lemma InHeadOrTail<B>(bs: seq<B>, o: Option<B>)
    requires bs != [] && bs[0] !in bs[1..]
    ensures o.Some? && o.value in bs <==> o == Some(bs[0]) || (o.Some? && o.value in bs[1..])
    ensures !(o == Some(bs[0]) && o.Some? && o.value in bs[1..])
  {
    assert bs == [bs[0]] + bs[1..];
  }

  lemma SumNatCons(x: nat, xs: seq<nat>)
    ensures SumNat([x] + xs) == x + SumNat(xs)
  {
    assert ([x] + xs)[1..] == xs;
  }

  lemma {:induction false} CellsUnfold<A, B>(rows: seq<(Option<A>, Option<B>)>, as_: seq<A>, bs: seq<B>)
    requires rows != [] && NoDup(as_) && NoDup(bs)
    ensures SumRows(Cells(rows, as_, bs)) == SumRows(Cells(rows[1..], as_, bs))
      + (if rows[0].0.Some? && rows[0].1.Some? && rows[0].0.value in as_ && rows[0].1.value in bs then 1 else 0)
  {
    if as_ != [] {
      var a, tail, rest := as_[0], as_[1..], rows[1..];
      NoDupTail(as_);
      RowCellsUnfold(rows, a, bs);
      CellsUnfold(rows, tail, bs);
      assert Cells(rows, as_, bs) == [RowCells(rows, a, bs)] + Cells(rows, tail, bs);
      assert Cells(rest, as_, bs) == [RowCells(rest, a, bs)] + Cells(rest, tail, bs);
      SumRowsCons(RowCells(rows, a, bs), Cells(rows, tail, bs));
      SumRowsCons(RowCells(rest, a, bs), Cells(rest, tail, bs));
      InHeadOrTail(as_, rows[0].0);
    }
  }

  lemma SumRowsCons(x: seq<nat>, m: seq<seq<nat>>)
    ensures SumRows([x] + m) == SumNat(x) + SumRows(m)
  {
    assert ([x] + m)[1..] == m;
  }

  lemma {:induction false} CellsOfNoRows<A, B>(as_: seq<A>, bs: seq<B>)
    ensures SumRows(Cells([], as_, bs)) == 0
  {
    if as_ != [] {
      CellsOfNoRows(as_[1..], bs);
      RowCellsOfNoRows(as_[0], bs);
    }
  }

  lemma {:induction false} RowCellsOfNoRows<A, B>(a: A, bs: seq<B>)
    ensures SumNat(RowCells([], a, bs)) == 0
  {
    if bs != [] {
      RowCellsOfNoRows(a, bs[1..]);
    }
  }

  /** Summing the cells over label lists that cover every complete row counts the complete rows. */
  lemma {:induction false} CellsCountCompleteRows<A(!new), B(!new)>(rows: seq<(Option<A>, Option<B>)>, as_: seq<A>, bs: seq<B>)
    requires NoDup(as_) && NoDup(bs)
    requires forall k :: 0 <= k < |rows| && rows[k].0.Some? && rows[k].1.Some? ==>
      rows[k].0.value in as_ && rows[k].1.value in bs
    ensures SumRows(Cells(rows, as_, bs)) == |Complete(rows)|
  {
    if rows == [] {
      CellsOfNoRows(as_, bs);
    } else {
      CellsUnfold(rows, as_, bs);
      assert forall k :: 1 <= k < |rows| ==> rows[1..][k - 1] == rows[k];
      CellsCountCompleteRows(rows[1..], as_, bs);
    }
  }

  /** `pd.crosstab`: the distinct labels of each variable among the rows where both are present,
      and the count of every pair (CrosstabCounts). */
  function Crosstab<A(==,!new), B(==,!new)>(rows: seq<(Option<A>, Option<B>)>): (t: Table<A, B>)
    ensures |t.rowLabels| > 0 ==> TableTotal(t) > 0
  {
    var as_ := Distinct(Firsts(Complete(rows)));
    var bs := Distinct(Seconds(Complete(rows)));
    LabelsCoverCompleteRows(rows, as_, bs);
    CellsCountCompleteRows(rows, as_, bs);
    assert |as_| > 0 ==> as_[0] in Firsts(Complete(rows));
    Table(as_, bs, Cells(rows, as_, bs))
  }

  /** The contingency table: each label list holds every label of a row with both values present,
      once; every cell (a, b) counts the rows with var1 = a and var2 = b; and the table total n is
      the number of rows in which both variables are present. */
  lemma CrosstabCounts<A(!new), B(!new)>(rows: seq<(Option<A>, Option<B>)>)
    ensures var t := Crosstab(rows);
      && NoDup(t.rowLabels) && NoDup(t.colLabels)
      && (forall a :: a in t.rowLabels <==> a in Firsts(Complete(rows)))
      && (forall b :: b in t.colLabels <==> b in Seconds(Complete(rows)))
      && |t.cells| == |t.rowLabels|
      && (forall i :: 0 <= i < |t.rowLabels| ==> |t.cells[i]| == |t.colLabels|)
      && (forall i, j :: 0 <= i < |t.rowLabels| && 0 <= j < |t.colLabels| ==>
            t.cells[i][j] == CountPair(rows, t.rowLabels[i], t.colLabels[j]))
      && TableTotal(t) == |Complete(rows)|
  {
    var as_ := Distinct(Firsts(Complete(rows)));
    var bs := Distinct(Seconds(Complete(rows)));
    LabelsCoverCompleteRows(rows, as_, bs);
    CellsCountCompleteRows(rows, as_, bs);
  }

  lemma {:induction false} LabelsCoverCompleteRows<A(!new), B(!new)>(rows: seq<(Option<A>, Option<B>)>, as_: seq<A>, bs: seq<B>)
    requires forall a :: a in as_ <==> a in Firsts(Complete(rows))
    requires forall b :: b in bs <==> b in Seconds(Complete(rows))
    ensures forall k :: 0 <= k < |rows| && rows[k].0.Some? && rows[k].1.Some? ==>
      rows[k].0.value in as_ && rows[k].1.value in bs
  {
    CompleteCovers(rows);
  }

  lemma {:induction false} CompleteCovers<A(!new), B(!new)>(rows: seq<(Option<A>, Option<B>)>)
    ensures forall k :: 0 <= k < |rows| && rows[k].0.Some? && rows[k].1.Some? ==>
      rows[k].0.value in Firsts(Complete(rows)) && rows[k].1.value in Seconds(Complete(rows))
  {
    if rows != [] {
      CompleteCovers(rows[1..]);
      var c := Complete(rows);
      if rows[0].0.Some? && rows[0].1.Some? {
        assert c == [(rows[0].0.value, rows[0].1.value)] + Complete(rows[1..]);
        assert Firsts(c) == [rows[0].0.value] + Firsts(Complete(rows[1..]));
        assert Seconds(c) == [rows[0].1.value] + Seconds(Complete(rows[1..]));
      }
      assert forall k :: 1 <= k < |rows| ==> rows[k] == rows[1..][k - 1];
    }
  }

  /** `np.sqrt(chi2 / (n * min_dim)) if min_dim > 0 else 0`. */
  function CramersV(chi2: real, n: nat, minDim: int, sqrt: real -> real): (v: real)
    requires minDim > 0 ==> n > 0
    ensures minDim <= 0 ==> v == 0.0
  {
    if minDim > 0 then sqrt(chi2 / (n * minDim) as real) else 0.0
  }

  /** Cramér's V lies in [0, 1] whenever the foreign statistic satisfies 0 <= chi2 <= n * min_dim. */
  lemma CramersVInUnitInterval(chi2: real, n: nat, minDim: int, lib: SciPy)
    requires SqrtIsRoot(lib) && (minDim > 0 ==> n > 0)
    requires 0.0 <= chi2 && (minDim > 0 ==> chi2 <= (n * minDim) as real)
    ensures 0.0 <= CramersV(chi2, n, minDim, lib.sqrt) <= 1.0
  {
    if minDim > 0 {
      var d := (n * minDim) as real;
      assert d > 0.0;
      var q := chi2 / d;
      assert 0.0 <= q <= 1.0 by {
        assert q * d == chi2;
      }
      var r := lib.sqrt(q);
      assert 0.0 <= r && r * r == q;
    }
  }

  lemma CramersVNonNegative(chi2: real, n: nat, minDim: int, lib: SciPy)
    requires SqrtIsRoot(lib) && (minDim > 0 ==> n > 0) && 0.0 <= chi2
    ensures CramersV(chi2, n, minDim, lib.sqrt) >= 0.0
  {
    if minDim > 0 {
      var d := (n * minDim) as real;
      assert d > 0.0;
      assert chi2 / d >= 0.0;
    }
  }

  datatype ChiSquareResult<A, B> = ChiSquareResult(
    chi2Statistic: real,
    pValue: real,
    degreesOfFreedom: int,
    cramersV: real,
    isSignificant: bool,
    effectSize: Effect,
    contingencyTable: Table<A, B>)

  /** `perform_chi_square_test(df, var1, var2)`, the two columns given row by row. */
  function PerformChiSquareTest<A(==,!new), B(==,!new)>(rows: seq<(Option<A>, Option<B>)>, lib: SciPy): (r: ChiSquareResult<A, B>)
    ensures r.contingencyTable == Crosstab(rows)
    ensures var out := lib.chi2Contingency(r.contingencyTable.cells);
      r.chi2Statistic == out.chi2 && r.pValue == out.pValue && r.degreesOfFreedom == out.dof
    ensures r.cramersV == CramersV(r.chi2Statistic, TableTotal(r.contingencyTable), MinDim(r.contingencyTable), lib.sqrt)
    ensures MinDim(r.contingencyTable) <= 0 ==> r.cramersV == 0.0
    ensures r.isSignificant <==> r.pValue < Alpha
    ensures r.effectSize == InterpretCramersV(r.cramersV)
  {
    var t := Crosstab(rows);
    var out := lib.chi2Contingency(t.cells);
    var v := CramersV(out.chi2, TableTotal(t), MinDim(t), lib.sqrt);
    ChiSquareResult(out.chi2, out.pValue, out.dof, v, IsSignificant(out.pValue), InterpretCramersV(v), t)
  }

  /** Cramér's V of the test is never negative, and at most 1 when chi2 <= n * min_dim. */
  lemma ChiSquareCramersVBounds<A(!new), B(!new)>(rows: seq<(Option<A>, Option<B>)>, lib: SciPy)
    requires SqrtIsRoot(lib) && Chi2NonNegative(lib)
    ensures var r := PerformChiSquareTest(rows, lib);
      var n, m := TableTotal(r.contingencyTable), MinDim(r.contingencyTable);
      r.cramersV >= 0.0 && (m > 0 && r.chi2Statistic <= (n * m) as real ==> r.cramersV <= 1.0)
  {
    var r := PerformChiSquareTest(rows, lib);
    var n, m := TableTotal(r.contingencyTable), MinDim(r.contingencyTable);
    assert r.cramersV == CramersV(r.chi2Statistic, n, m, lib.sqrt);
    assert m > 0 ==> n > 0;
    assert r.chi2Statistic >= 0.0;
    CramersVNonNegative(r.chi2Statistic, n, m, lib);
    if m > 0 && r.chi2Statistic <= (n * m) as real {
      CramersVInUnitInterval(r.chi2Statistic, n, m, lib);
    }
  }

  // ---------------------------------------------------------------------------
  // perform_t_test: sample selection, test choice, Cohen's d

  /** `df[df[group_var] == g][numeric_var].dropna()`: the present values of group `g`, in row order. */
  function GroupValues<G(==)>(rows: seq<(Option<G>, Option<real>)>, g: G): (xs: seq<real>)
    ensures |xs| <= |rows|
  {
    if rows == [] then []
    else if rows[0].0 == Some(g) && rows[0].1.Some? then [rows[0].1.value] + GroupValues(rows[1..], g)
    else GroupValues(rows[1..], g)
  }

  function Square(x: real): (r: real)
    ensures r >= 0.0
  {
    x * x
  }

  /** Sum of squared deviations from a reference value c. */
  function SquaredDeviations(xs: seq<real>, c: real): (s: real)
    ensures s >= 0.0
  {
    if xs == [] then 0.0 else Square(xs[0] - c) + SquaredDeviations(xs[1..], c)
  }

  /** pandas `std()` (one delta degree of freedom), over the foreign square root. */
  function SampleStd(xs: seq<real>, sqrt: real -> real): real
    requires |xs| >= 2
  {
    sqrt(SquaredDeviations(xs, Sum(xs) / |xs| as real) / (|xs| - 1) as real)
  }

  datatype TestKind = EqualVarianceT | WelchT | MannWhitneyU {
    function Text(): string {
      match this
      case EqualVarianceT => "T-test (varianzas iguales)"
      case WelchT => "T-test de Welch (varianzas diferentes)"
      case MannWhitneyU => "Mann-Whitney U"
    }
  }

  /** Shapiro-Wilk is run only below 5000 observations; a larger sample counts as p = 1. */
  function NormalityP(n: nat, shapiroP: real): (p: real)
    ensures n >= 5000 ==> p == 1.0
    ensures n < 5000 ==> p == shapiroP
  {
    if n < 5000 then shapiroP else 1.0
  }

  /** The decision of lines 112-126, where a p-value of 0 is falsy. */
  function ChooseTest(pNorm1: real, pNorm2: real, pLevene: real): (k: TestKind)
  {
    if pNorm1 != 0.0 && pNorm2 != 0.0 && pNorm1 > 0.05 && pNorm2 > 0.05 then
      (if pLevene > 0.05 then EqualVarianceT else WelchT)
    else MannWhitneyU
  }

  /** Mann-Whitney is chosen exactly when either normality p-value is at most 0.05 (0 included);
      otherwise the equal-variance t-test exactly when Levene's p exceeds 0.05, else Welch. */
  lemma ChooseTestCases(pNorm1: real, pNorm2: real, pLevene: real)
    ensures ChooseTest(pNorm1, pNorm2, pLevene) == MannWhitneyU <==> pNorm1 <= 0.05 || pNorm2 <= 0.05
    ensures ChooseTest(pNorm1, pNorm2, pLevene) == EqualVarianceT <==> pNorm1 > 0.05 && pNorm2 > 0.05 && pLevene > 0.05
    ensures ChooseTest(pNorm1, pNorm2, pLevene) == WelchT <==> pNorm1 > 0.05 && pNorm2 > 0.05 && pLevene <= 0.05
  {
  }

  /** A sample of 5000 or more never forces the rank test on its own. */
  lemma LargeSamplesSkipNormality(n1: nat, n2: nat, s1: real, s2: real, pLevene: real)
    requires n1 >= 5000 && n2 >= 5000
    ensures ChooseTest(NormalityP(n1, s1), NormalityP(n2, s2), pLevene) != MannWhitneyU
    ensures ChooseTest(NormalityP(n1, s1), NormalityP(n2, s2), pLevene) == EqualVarianceT <==> pLevene > 0.05
  {
  }

  /** `np.sqrt((std1**2 + std2**2) / 2)`. */
  function PooledStd(std1: real, std2: real, sqrt: real -> real): real {
    sqrt((Square(std1) + Square(std2)) / 2.0)
  }

  /** `(mean1 - mean2) / pooled_std if pooled_std > 0 else 0`. */
  function CohensD(mean1: real, mean2: real, pooledStd: real): (d: real)
    ensures pooledStd <= 0.0 ==> d == 0.0
    ensures pooledStd > 0.0 ==> d * pooledStd == mean1 - mean2
    ensures pooledStd > 0.0 ==> (d > 0.0 <==> mean1 > mean2) && (d < 0.0 <==> mean1 < mean2)
  {
    if pooledStd > 0.0 then (mean1 - mean2) / pooledStd else 0.0
  }

  /** With a genuine square root the pooled standard deviation is never negative. */
  lemma PooledStdNonNegative(std1: real, std2: real, lib: SciPy)
    requires SqrtIsRoot(lib)
    ensures PooledStd(std1, std2, lib.sqrt) >= 0.0
  {
    assert (Square(std1) + Square(std2)) / 2.0 >= 0.0;
  }

  datatype TTestResult = TTestResult(
    testType: TestKind,
    statistic: real,
    pValue: real,
    meanGroup1: real,
    meanGroup2: real,
    stdGroup1: real,
    stdGroup2: real,
    cohensD: real,
    effectSize: Effect,
    isSignificant: bool,
    nGroup1: nat,
    nGroup2: nat)

  /** `perform_t_test(df, numeric_var, group_var, group1, group2)`. Shapiro-Wilk raises on fewer
      than three observations, which is the only demand the function makes of its input. */
  function PerformTTest<G(==)>(rows: seq<(Option<G>, Option<real>)>, group1: G, group2: G, lib: SciPy): (r: TTestResult)
    requires |GroupValues(rows, group1)| >= 3 && |GroupValues(rows, group2)| >= 3
    ensures var d1, d2 := GroupValues(rows, group1), GroupValues(rows, group2);
      && r.nGroup1 == |d1| && r.nGroup2 == |d2|
      && r.testType == ChooseTest(NormalityP(|d1|, lib.shapiro(d1)), NormalityP(|d2|, lib.shapiro(d2)), lib.levene(d1, d2))
      && (r.testType == MannWhitneyU ==> (r.statistic, r.pValue) == (lib.mannWhitneyU(d1, d2).statistic, lib.mannWhitneyU(d1, d2).pValue))
      && (r.testType == EqualVarianceT ==> (r.statistic, r.pValue) == (lib.ttestInd(d1, d2, true).statistic, lib.ttestInd(d1, d2, true).pValue))
      && (r.testType == WelchT ==> (r.statistic, r.pValue) == (lib.ttestInd(d1, d2, false).statistic, lib.ttestInd(d1, d2, false).pValue))
      && Mean(d1) == Some(r.meanGroup1) && Mean(d2) == Some(r.meanGroup2)
      && r.stdGroup1 == SampleStd(d1, lib.sqrt) && r.stdGroup2 == SampleStd(d2, lib.sqrt)
      && r.cohensD == CohensD(r.meanGroup1, r.meanGroup2, PooledStd(r.stdGroup1, r.stdGroup2, lib.sqrt))
    ensures r.effectSize == InterpretCohensD(Abs(r.cohensD))
    ensures r.isSignificant <==> r.pValue < Alpha
  {
    var d1, d2 := GroupValues(rows, group1), GroupValues(rows, group2);
    var kind := ChooseTest(NormalityP(|d1|, lib.shapiro(d1)), NormalityP(|d2|, lib.shapiro(d2)), lib.levene(d1, d2));
    var out :=
      match kind
      case EqualVarianceT => lib.ttestInd(d1, d2, true)
      case WelchT => lib.ttestInd(d1, d2, false)
      case MannWhitneyU => lib.mannWhitneyU(d1, d2);
    var mean1, mean2 := Sum(d1) / |d1| as real, Sum(d2) / |d2| as real;
    var std1, std2 := SampleStd(d1, lib.sqrt), SampleStd(d2, lib.sqrt);
    var d := CohensD(mean1, mean2, PooledStd(std1, std2, lib.sqrt));
    TTestResult(kind, out.statistic, out.pValue, mean1, mean2, std1, std2, d,
      InterpretCohensD(Abs(d)), IsSignificant(out.pValue), |d1|, |d2|)
  }

  /** Cohen's d is either 0 or has the sign of mean1 - mean2: the effect never points the wrong way. */
  lemma TTestEffectSign<G>(rows: seq<(Option<G>, Option<real>)>, group1: G, group2: G, lib: SciPy)
    requires |GroupValues(rows, group1)| >= 3 && |GroupValues(rows, group2)| >= 3
    requires SqrtIsRoot(lib)
    ensures var r := PerformTTest(rows, group1, group2, lib);
      r.cohensD == 0.0 || ((r.cohensD > 0.0 <==> r.meanGroup1 > r.meanGroup2) && (r.cohensD < 0.0 <==> r.meanGroup1 < r.meanGroup2))
    ensures var r := PerformTTest(rows, group1, group2, lib);
      r.meanGroup1 == r.meanGroup2 ==> r.cohensD == 0.0
  {
    var r := PerformTTest(rows, group1, group2, lib);
    PooledStdNonNegative(r.stdGroup1, r.stdGroup2, lib);
  }

  // ---------------------------------------------------------------------------
  // perform_anova: groups, eta squared

  /** The group labels of `df.groupby(group_var)`: every present key once, by first occurrence. */
  function GroupNames<G(==,!new), V>(rows: seq<(Option<G>, V)>): (names: seq<G>)
    ensures NoDup(names)
    ensures forall g :: g in names <==> (exists i :: 0 <= i < |rows| && rows[i].0 == Some(g))
  {
    var keys := Firsts(rows);
    var names := Distinct(Present(keys));
    assert forall g :: Some(g) in keys <==> (exists i :: 0 <= i < |rows| && rows[i].0 == Some(g)) by {
      forall g ensures Some(g) in keys <==> (exists i :: 0 <= i < |rows| && rows[i].0 == Some(g)) {
        if Some(g) in keys {
          var i :| 0 <= i < |keys| && keys[i] == Some(g);
          assert rows[i].0 == Some(g);
        }
        if exists i :: 0 <= i < |rows| && rows[i].0 == Some(g) {
          var i :| 0 <= i < |rows| && rows[i].0 == Some(g);
          assert keys[i] == Some(g);
        }
      }
    }
    names
  }

  /** The number of groups is the number of distinct present keys. */
  lemma GroupNamesCount<G(!new), V>(rows: seq<(Option<G>, V)>)
    ensures |GroupNames(rows)| == |set i | 0 <= i < |rows| && rows[i].0.Some? :: rows[i].0.value|
  {
    var names := GroupNames(rows);
    NoDupCardinality(names);
    assert (set g | g in names) == (set i | 0 <= i < |rows| && rows[i].0.Some? :: rows[i].0.value);
  }

  /** `len(g) * (g.mean() - grand_mean)**2` for one group, written as len(g) copies of the square
      (GroupBetweenIsProduct); an empty group adds nothing. */
  function GroupBetween(g: seq<real>, c: real): (term: real)
    ensures term >= 0.0
  {
    if g == [] then 0.0 else CopiesNonNegative(|g|, Square(Sum(g) / |g| as real - c)); Copies(|g|, Square(Sum(g) / |g| as real - c))
  }

  /** SS_between: the group terms summed. */
  function BetweenSS(groups: seq<seq<real>>, c: real): (ss: real)
    ensures ss >= 0.0
  {
    if groups == [] then 0.0 else GroupBetween(groups[0], c) + BetweenSS(groups[1..], c)
  }

  /** `(x - grand_mean)**2` over every value of every group. */
  function TotalSS(groups: seq<seq<real>>, c: real): (ss: real)
    ensures ss >= 0.0
  {
    if groups == [] then 0.0 else SquaredDeviations(groups[0], c) + TotalSS(groups[1..], c)
  }

  /** `ss_between / ss_total if ss_total > 0 else 0`. */
  function EtaSquared(ssBetween: real, ssTotal: real): (eta: real)
    ensures ssTotal <= 0.0 ==> eta == 0.0
    ensures ssTotal > 0.0 ==> eta * ssTotal == ssBetween
  {
    if ssTotal > 0.0 then ssBetween / ssTotal else 0.0
  }

  /** The cross terms 2 (m - c) (x - m) of expanding (x - c)^2 around m. */
  function CrossTerms(xs: seq<real>, m: real, c: real): real
  {
    if xs == [] then 0.0 else 2.0 * (m - c) * (xs[0] - m) + CrossTerms(xs[1..], m, c)
  }

  /** q added n times. */
  function Copies(n: nat, q: real): real
  {
    if n == 0 then 0.0 else q + Copies(n - 1, q)
  }

  lemma {:induction false} CopiesNonNegative(n: nat, q: real)
    requires q >= 0.0
    ensures Copies(n, q) >= 0.0
  {
    if n > 0 {
      CopiesNonNegative(n - 1, q);
    }
  }

  lemma {:induction false} CopiesIsProduct(n: nat, q: real)
    ensures Copies(n, q) == n as real * q
  {
    if n > 0 {
      CopiesIsProduct(n - 1, q);
      assert (n - 1) as real * q + q == n as real * q;
    }
  }

  /** The between-groups term is exactly len(g) * (mean - c)^2. */
  lemma GroupBetweenIsProduct(g: seq<real>, c: real)
    requires g != []
    ensures GroupBetween(g, c) == |g| as real * Square(Sum(g) / |g| as real - c)
  {
    CopiesIsProduct(|g|, Square(Sum(g) / |g| as real - c));
  }

  lemma SquareShift(x: real, m: real, c: real)
    ensures Square(x - c) == Square(x - m) + 2.0 * (m - c) * (x - m) + Square(m - c)
  {
  }

  lemma {:induction false} ShiftedDeviations(xs: seq<real>, m: real, c: real)
    ensures SquaredDeviations(xs, c) == SquaredDeviations(xs, m) + CrossTerms(xs, m, c) + Copies(|xs|, Square(m - c))
  {
    if xs != [] {
      ShiftedDeviations(xs[1..], m, c);
      SquareShift(xs[0], m, c);
    }
  }

  lemma {:induction false} CrossTermsFactor(xs: seq<real>, m: real, c: real)
    ensures CrossTerms(xs, m, c) == 2.0 * (m - c) * (Sum(xs) - |xs| as real * m)
  {
    if xs != [] {
      CrossTermsFactor(xs[1..], m, c);
      var k, t := 2.0 * (m - c), Sum(xs[1..]) - |xs[1..]| as real * m;
      assert k * (xs[0] - m) + k * t == k * ((xs[0] - m) + t);
      assert (xs[0] - m) + t == Sum(xs) - |xs| as real * m;
    }
  }

  /** Around a mean m (n m = the sum) the cross terms cancel. */
  lemma CrossTermsVanish(g: seq<real>, m: real, c: real)
    requires |g| as real * m == Sum(g)
    ensures CrossTerms(g, m, c) == 0.0
  {
    CrossTermsFactor(g, m, c);
  }

  lemma MeanTimesCount(xs: seq<real>)
    requires xs != []
    ensures |xs| as real * (Sum(xs) / |xs| as real) == Sum(xs)
  {
  }

  /** Around a mean m (n m = the sum), the squared deviations from any c split into those
      from m plus n copies of (m - c)^2. */
  lemma DeviationsAroundMean(g: seq<real>, m: real, c: real)
    requires |g| as real * m == Sum(g)
    ensures SquaredDeviations(g, c) == SquaredDeviations(g, m) + Copies(|g|, Square(m - c))
  {
    ShiftedDeviations(g, m, c);
    CrossTermsVanish(g, m, c);
  }

  /** For any reference c, a group's between-groups term never exceeds its squared deviations from c. */
  lemma GroupBetweenAtMostTotal(g: seq<real>, c: real)
    ensures GroupBetween(g, c) <= SquaredDeviations(g, c)
  {
    if g != [] {
      MeanTimesCount(g);
      DeviationsAroundMean(g, Sum(g) / |g| as real, c);
    }
  }

  /** SS_between never exceeds SS_total, whatever reference mean both use. */
  lemma {:induction false} BetweenAtMostTotal(groups: seq<seq<real>>, c: real)
    ensures BetweenSS(groups, c) <= TotalSS(groups, c)
  {
    if groups != [] {
      BetweenAtMostTotal(groups[1..], c);
      GroupBetweenAtMostTotal(groups[0], c);
    }
  }

  /** A ratio of a part to a positive whole lies in [0, 1]. */
  lemma RatioInUnitInterval(part: real, whole: real)
    requires 0.0 <= part <= whole && whole > 0.0
    ensures 0.0 <= part / whole <= 1.0
  {
  }

  /** Eta squared always lies in [0, 1]. */
  lemma EtaSquaredInUnitInterval(groups: seq<seq<real>>, c: real)
    ensures 0.0 <= EtaSquared(BetweenSS(groups, c), TotalSS(groups, c)) <= 1.0
  {
    BetweenAtMostTotal(groups, c);
    if TotalSS(groups, c) > 0.0 {
      RatioInUnitInterval(BetweenSS(groups, c), TotalSS(groups, c));
    }
  }

  /** Two keyed rows with equal values and one row without a group. */
  const ShiftedRows: seq<(Option<int>, Option<real>)> := [(Some(1), Some(1.0)), (Some(2), Some(1.0)), (None, Some(4.0))]

  lemma ShiftedRowsGrandMean()
    ensures GrandMean(ShiftedRows) == 2.0
  {
    var vs := Seconds(ShiftedRows);
    assert vs == [Some(1.0), Some(1.0), Some(4.0)];
    assert vs[1..] == [Some(1.0), Some(4.0)] && vs[1..][1..] == [Some(4.0)] && vs[1..][1..][1..] == [];
    assert Present(vs[1..][1..]) == [4.0];
    assert Present(vs) == [1.0, 1.0, 4.0];
    var xs: seq<real> := [1.0, 1.0, 4.0];
    assert xs[1..] == [1.0, 4.0] && xs[1..][1..] == [4.0] && xs[1..][1..][1..] == [];
    assert Sum(xs) == 6.0;
  }

  lemma ShiftedRowsGroupNames()
    ensures GroupNames(ShiftedRows) == [1, 2]
  {
    var keys := Firsts(ShiftedRows);
    assert keys == [Some(1), Some(2), None];
    assert keys[1..] == [Some(2), None] && keys[1..][1..] == [None] && keys[1..][1..][1..] == [];
    assert Present(keys[1..][1..]) == [];
    assert Present(keys[1..]) == [2];
    assert Present(keys) == [1, 2];
    assert [1, 2][..1] == [1] && [1][..0] == [];
    assert Distinct([1, 2]) == [1, 2];
  }

  lemma ShiftedRowsGroups()
    ensures GroupedValues(ShiftedRows) == [[1.0], [1.0]]
  {
    var rows := ShiftedRows;
    assert rows[1..] == [(Some(2), Some(1.0)), (None, Some(4.0))];
    assert rows[1..][1..] == [(None, Some(4.0))] && rows[1..][1..][1..] == [];
    assert GroupValues(rows, 1) == [1.0];
    assert GroupValues(rows, 2) == [1.0];
    ShiftedRowsGroupNames();
    GroupedValuesAt(rows, 0);
    GroupedValuesAt(rows, 1);
  }

  /** `grand_mean` averages every present value, rows without a group included, while the groups
      hold only keyed rows: two groups with identical values then still get eta squared 1. */
  lemma UngroupedRowShiftsEtaSquared()
    ensures GrandMean(ShiftedRows) == 2.0
    ensures GroupedValues(ShiftedRows) == [[1.0], [1.0]]
    ensures EtaSquared(BetweenSS(GroupedValues(ShiftedRows), GrandMean(ShiftedRows)),
                       TotalSS(GroupedValues(ShiftedRows), GrandMean(ShiftedRows))) == 1.0
  {
    ShiftedRowsGrandMean();
    ShiftedRowsGroups();
    OneValueGroup(1.0, 2.0);
    var groups: seq<seq<real>> := [[1.0], [1.0]];
    assert groups[1..] == [[1.0]] && groups[1..][1..] == [];
    assert BetweenSS(groups, 2.0) == 2.0;
    assert TotalSS(groups, 2.0) == 2.0;
  }

  /** A one-value group contributes (x - c)^2 to both sums. */
  lemma OneValueGroup(x: real, c: real)
    ensures GroupBetween([x], c) == Square(x - c) == SquaredDeviations([x], c)
  {
    assert [x][1..] == [];
    assert Sum([x]) / |[x]| as real == x;
    assert Copies(1, Square(x - c)) == Square(x - c) + Copies(0, Square(x - c));
  }

  /** `group_stats` row: n, mean, std and median of one group's present values (NaN = None:
      mean and median of an empty group, std of fewer than two values). */
  datatype GroupStat<G> = GroupStat(group: G, n: nat, mean: Option<real>, std: Option<real>, median: Option<real>)

  function StatOf<G>(name: G, g: seq<real>, lib: SciPy): (s: GroupStat<G>)
    ensures s.group == name && s.n == |g| && s.mean == Mean(g)
    ensures s.std.Some? <==> |g| >= 2
    ensures |g| >= 2 ==> s.std == Some(SampleStd(g, lib.sqrt))
    ensures s.median.Some? <==> |g| > 0
  {
    GroupStat(name, |g|, Mean(g),
      if |g| >= 2 then Some(SampleStd(g, lib.sqrt)) else None,
      if |g| > 0 then Some(lib.median(g)) else None)
  }

  function GroupStats<G>(names: seq<G>, groups: seq<seq<real>>, lib: SciPy): (t: seq<GroupStat<G>>)
    requires |names| == |groups|
    ensures |t| == |names|
    ensures forall j :: 0 <= j < |t| ==> t[j] == StatOf(names[j], groups[j], lib)
  {
    if names == [] then [] else [StatOf(names[0], groups[0], lib)] + GroupStats(names[1..], groups[1..], lib)
  }

  /** `df[numeric_var].mean()`: the mean of every present value, rows without a group included.
      With no present value there is no group value either, SS_total is 0, and the reference is immaterial. */
  function GrandMean<G>(rows: seq<(Option<G>, Option<real>)>): real {
    Mean(Present(Seconds(rows))).GetOr(0.0)
  }

  function ValuesOf<G(==)>(rows: seq<(Option<G>, Option<real>)>): G -> seq<real> {
    (g: G) => GroupValues(rows, g)
  }

  /** The groups handed to `f_oneway`: each group's present values, groups in `GroupNames` order. */
  function GroupedValues<G(==,!new)>(rows: seq<(Option<G>, Option<real>)>): (groups: seq<seq<real>>)
    ensures |groups| == |GroupNames(rows)|
  {
    MapDefined(ValuesOf(rows), GroupNames(rows))
  }

  lemma GroupedValuesAt<G(!new)>(rows: seq<(Option<G>, Option<real>)>, j: nat)
    requires j < |GroupNames(rows)|
    ensures GroupedValues(rows)[j] == GroupValues(rows, GroupNames(rows)[j])
  {
    MapDefinedAt(ValuesOf(rows), GroupNames(rows), j);
  }

  datatype AnovaResult<G> = AnovaResult(
    fStatistic: real,
    pValue: real,
    etaSquared: real,
    effectSize: Effect,
    isSignificant: bool,
    groupStats: seq<GroupStat<G>>,
    nGroups: nat)

  /** `perform_anova(df, numeric_var, group_var)`: one group per distinct present key, its present
      values in row order, then F, eta squared and the per-group table. `f_oneway` refuses fewer
      than two groups. */
  method PerformAnova<G(==,!new)>(rows: seq<(Option<G>, Option<real>)>, lib: SciPy) returns (r: AnovaResult<G>)
    requires |GroupNames(rows)| >= 2
    ensures r.nGroups == |GroupNames(rows)| == |r.groupStats|
    ensures r.nGroups == |set i | 0 <= i < |rows| && rows[i].0.Some? :: rows[i].0.value|
    ensures r.groupStats == GroupStats(GroupNames(rows), GroupedValues(rows), lib)
    ensures var groups := GroupedValues(rows);
      && r.fStatistic == lib.fOneway(groups).statistic && r.pValue == lib.fOneway(groups).pValue
      && r.etaSquared == EtaSquared(BetweenSS(groups, GrandMean(rows)), TotalSS(groups, GrandMean(rows)))
    ensures 0.0 <= r.etaSquared <= 1.0
    ensures r.isSignificant <==> r.pValue < Alpha
    ensures r.effectSize == InterpretEtaSquared(r.etaSquared)
  {
    var names := GroupNames(rows);
    var groups: seq<seq<real>> := [];
    var groupNames: seq<G> := [];
    var i := 0;
    while i < |names|
      invariant 0 <= i <= |names|
      invariant groupNames == names[..i]
      invariant groups == MapDefined(ValuesOf(rows), names[..i])
    {
      MapDefinedSnoc(ValuesOf(rows), names, i);
      groups := groups + [GroupValues(rows, names[i])];
      groupNames := groupNames + [names[i]];
      i := i + 1;
    }
    assert groupNames == names;
    var out := lib.fOneway(groups);
    var c := GrandMean(rows);
    var eta := EtaSquared(BetweenSS(groups, c), TotalSS(groups, c));
    EtaSquaredInUnitInterval(groups, c);
    GroupNamesCount(rows);
    r := AnovaResult(out.statistic, out.pValue, eta, InterpretEtaSquared(eta), IsSignificant(out.pValue),
      GroupStats(groupNames, groups, lib), |groups|);
  }

  // ---------------------------------------------------------------------------
  // calculate_proportion_ci

  /** The normal quantile the interval uses: `norm.ppf(1 - (1 - confidence) / 2)`. */
  function ZScore(confidence: real, lib: SciPy): real {
    lib.normPpf(1.0 - (1.0 - confidence) / 2.0)
  }

  /** `(max(0, p - h), min(1, p + h))`: the interval of half-width h clipped to [0, 1]. */
  function Clip(p: real, h: real): (ci: (real, real))
    ensures ci.0 >= 0.0 && ci.1 <= 1.0
    ensures 0.0 <= p <= 1.0 && h >= 0.0 ==> ci.0 <= p <= ci.1
    ensures 0.0 <= p <= 1.0 && h == 0.0 ==> ci == (p, p)
  {
    (Max(0.0, p - h), Min(1.0, p + h))
  }

  /** `calculate_proportion_ci(successes, total, confidence)`: the Wald interval clipped to [0, 1],
      and (0, 0) for an empty total. */
  function ProportionCI(successes: int, total: int, confidence: real, lib: SciPy): (ci: (real, real))
    ensures total == 0 ==> ci == (0.0, 0.0)
    ensures ci.0 >= 0.0 && ci.1 <= 1.0
  {
    if total == 0 then (0.0, 0.0)
    else
      var p := successes as real / total as real;
      Clip(p, HalfWidth(p, total, confidence, lib))
  }

  /** `z * np.sqrt((p * (1 - p)) / total)`. */
  function HalfWidth(p: real, total: int, confidence: real, lib: SciPy): real
    requires total != 0
  {
    ZScore(confidence, lib) * lib.sqrt(p * (1.0 - p) / total as real)
  }

  lemma SqrtNonNegative(lib: SciPy, x: real)
    requires SqrtIsRoot(lib) && x >= 0.0
    ensures lib.sqrt(x) >= 0.0
  {
  }

  lemma ProductNonNegative(a: real, b: real)
    requires a >= 0.0 && b >= 0.0
    ensures a * b >= 0.0
  {
  }

  lemma ProductWithZero(a: real, b: real)
    requires a == 0.0 || b == 0.0
    ensures a * b == 0.0
  {
  }

  lemma ProportionInUnitInterval(successes: int, total: int)
    requires 0 <= successes <= total && total > 0
    ensures 0.0 <= successes as real / total as real <= 1.0
  {
  }

  lemma ExtremeProportion(successes: int, total: int)
    requires total > 0 && (successes == 0 || successes == total)
    ensures successes == 0 ==> successes as real / total as real == 0.0
    ensures successes == total ==> successes as real / total as real == 1.0
  {
  }

  lemma ZeroOver(t: int)
    requires t > 0
    ensures 0.0 / t as real == 0.0
  {
  }

  lemma VarianceNonNegative(p: real, total: int)
    requires 0.0 <= p <= 1.0 && total > 0
    ensures p * (1.0 - p) / total as real >= 0.0
  {
    ProductNonNegative(p, 1.0 - p);
  }

  /** With a genuine square root and a non-negative z the half-width is non-negative. */
  lemma HalfWidthNonNegative(p: real, total: int, confidence: real, lib: SciPy)
    requires 0.0 <= p <= 1.0 && total > 0
    requires SqrtIsRoot(lib) && ZScore(confidence, lib) >= 0.0
    ensures HalfWidth(p, total, confidence, lib) >= 0.0
  {
    var v := p * (1.0 - p) / total as real;
    VarianceNonNegative(p, total);
    SqrtNonNegative(lib, v);
    ProductNonNegative(ZScore(confidence, lib), lib.sqrt(v));
  }

  /** At p = 0 or p = 1 the variance vanishes and so does the half-width. */
  lemma HalfWidthAtExtremes(p: real, total: int, confidence: real, lib: SciPy)
    requires (p == 0.0 || p == 1.0) && total > 0
    requires SqrtIsRoot(lib)
    ensures HalfWidth(p, total, confidence, lib) == 0.0
  {
    var v := p * (1.0 - p) / total as real;
    ProductWithZero(p, 1.0 - p);
    ZeroOver(total);
    assert v == 0.0;
    ProductWithZero(ZScore(confidence, lib), lib.sqrt(v));
  }

  /** With a non-negative z: 0 <= lower <= successes/total <= upper <= 1. */
  lemma ProportionCIBounds(successes: int, total: int, confidence: real, lib: SciPy)
    requires 0 <= successes <= total && total > 0
    requires SqrtIsRoot(lib) && ZScore(confidence, lib) >= 0.0
    ensures var ci := ProportionCI(successes, total, confidence, lib);
      0.0 <= ci.0 <= successes as real / total as real <= ci.1 <= 1.0
  {
    ProportionInUnitInterval(successes, total);
    HalfWidthNonNegative(successes as real / total as real, total, confidence, lib);
  }

  /** No success or all successes give the degenerate interval at the proportion itself. */
  lemma ProportionCIDegenerate(successes: int, total: int, confidence: real, lib: SciPy)
    requires total > 0 && (successes == 0 || successes == total)
    requires SqrtIsRoot(lib)
    ensures var p := successes as real / total as real;
      ProportionCI(successes, total, confidence, lib) == (p, p)
  {
    ExtremeProportion(successes, total);
    HalfWidthAtExtremes(successes as real / total as real, total, confidence, lib);
  }

  // ---------------------------------------------------------------------------
  // calculate_cancellation_metrics

  /** `sum` of is_canceled over the rows of group k. */
  function CanceledSum<K(==)>(rows: seq<(Option<K>, int)>, k: K): int {
    if rows == [] then 0
    else (if rows[0].0 == Some(k) then rows[0].1 else 0) + CanceledSum(rows[1..], k)
  }

  /** `count` of group k (is_canceled has no missing values). */
  function KeyCount<K(==), V>(rows: seq<(Option<K>, V)>, k: K): (n: nat)
    ensures n <= |rows|
    ensures n > 0 <==> exists i :: 0 <= i < |rows| && rows[i].0 == Some(k)
  {
    if rows == [] then 0
    else
      var n := (if rows[0].0 == Some(k) then 1 else 0) + KeyCount(rows[1..], k);
      assert forall i :: 1 <= i < |rows| ==> rows[i] == rows[1..][i - 1];
      assert (exists i :: 0 <= i < |rows[1..]| && rows[1..][i].0 == Some(k)) ==> exists i :: 0 <= i < |rows| && rows[i].0 == Some(k);
      n
  }

  /** With is_canceled in {0, 1}, a group has between 0 and count cancellations. */
  lemma {:induction false} CanceledSumBounds<K>(rows: seq<(Option<K>, int)>, k: K)
    requires forall i :: 0 <= i < |rows| ==> 0 <= rows[i].1 <= 1
    ensures 0 <= CanceledSum(rows, k) <= KeyCount(rows, k)
  {
    if rows != [] {
      CanceledSumBounds(rows[1..], k);
    }
  }

  /** One row of the metrics frame. */
  datatype CancellationRow<K> = CancellationRow(
    key: K,
    cancelaciones: int,
    tasaCancelacion: real,
    totalReservas: nat,
    noCanceladas: int,
    tasaConfirmacion: real,
    ciLower: real,
    ciUpper: real)

  /** The metrics of group k as the aggregation and the added columns define them. */
  function MetricsRow<K(==)>(rows: seq<(Option<K>, int)>, k: K, lib: SciPy): (m: CancellationRow<K>)
    requires KeyCount(rows, k) > 0
    ensures m.key == k && m.cancelaciones == CanceledSum(rows, k) && m.totalReservas == KeyCount(rows, k)
    ensures m.tasaCancelacion == m.cancelaciones as real / m.totalReservas as real
    ensures m.noCanceladas == m.totalReservas - m.cancelaciones
    ensures m.tasaConfirmacion == 1.0 - m.tasaCancelacion
    ensures (m.ciLower, m.ciUpper) == ProportionCI(m.cancelaciones, m.totalReservas, 0.95, lib)
  {
    var c, t := CanceledSum(rows, k), KeyCount(rows, k);
    var rate := c as real / t as real;
    var ci := ProportionCI(c, t, 0.95, lib);
    CancellationRow(k, c, rate, t, t - c, 1.0 - rate, ci.0, ci.1)
  }

  function CancellationRate<K>(m: CancellationRow<K>): real { m.tasaCancelacion }

  /** The metrics row of each group that has rows. */
  function MetricsOf<K(==)>(rows: seq<(Option<K>, int)>, lib: SciPy): K --> CancellationRow<K> {
    (k: K) requires KeyCount(rows, k) > 0 => MetricsRow(rows, k, lib)
  }

  /** The metrics rows of the given groups, in that order. */
  function MetricsTable<K(==)>(rows: seq<(Option<K>, int)>, names: seq<K>, lib: SciPy): (t: seq<CancellationRow<K>>)
    requires forall k :: k in names ==> KeyCount(rows, k) > 0
    ensures |t| == |names|
  {
    MapDefined(MetricsOf(rows, lib), names)
  }

  lemma GroupNamesPresent<K(!new), V>(rows: seq<(Option<K>, V)>)
    ensures forall k :: k in GroupNames(rows) ==> KeyCount(rows, k) > 0
  {
  }

  /** A reordering of the table holds exactly the rows of the listed groups. */
  lemma MetricsTableMembers<K(!new)>(rows: seq<(Option<K>, int)>, names: seq<K>, lib: SciPy, sorted: seq<CancellationRow<K>>)
    requires forall k :: k in names ==> KeyCount(rows, k) > 0
    requires multiset(sorted) == multiset(MetricsTable(rows, names, lib))
    ensures forall m :: m in sorted <==> exists k :: k in names && m == MetricsRow(rows, k, lib)
  {
    MapDefinedMembers(MetricsOf(rows, lib), names, sorted);
    forall m | m in sorted
      ensures exists k :: k in names && m == MetricsRow(rows, k, lib)
    {
      var j :| 0 <= j < |names| && m == MetricsOf(rows, lib)(names[j]);
      assert names[j] in names;
    }
    forall k | k in names
      ensures MetricsRow(rows, k, lib) in sorted
    {
      var j :| 0 <= j < |names| && names[j] == k;
      assert MetricsRow(rows, k, lib) == MetricsOf(rows, lib)(names[j]);
    }
  }

  /** `calculate_cancellation_metrics(df, group_vars)`. The key stands for the tuple of grouping
      values; `None` means that one of them is missing, and pandas drops such rows. */
  method CalculateCancellationMetrics<K(==,!new)>(rows: seq<(Option<K>, int)>, lib: SciPy) returns (metrics: seq<CancellationRow<K>>)
    ensures multiset(metrics) == multiset(MetricsTable(rows, GroupNames(rows), lib))
    ensures |metrics| == |GroupNames(rows)|
    ensures NonIncreasing(metrics, CancellationRate)
    ensures forall m :: m in metrics <==> exists k :: k in GroupNames(rows) && m == MetricsRow(rows, k, lib)
  {
    var names := GroupNames(rows);
    GroupNamesPresent(rows);
    var table: seq<CancellationRow<K>> := [];
    var i := 0;
    while i < |names|
      invariant 0 <= i <= |names|
      invariant table == MetricsTable(rows, names[..i], lib)
    {
      MapDefinedSnoc(MetricsOf(rows, lib), names, i);
      table := table + [MetricsRow(rows, names[i], lib)];
      i := i + 1;
    }
    assert names[..i] == names;
    metrics := SortByDesc(table, CancellationRate);
    assert |metrics| == |multiset(metrics)| == |table|;
    MetricsTableMembers(rows, names, lib, metrics);
  }

  /** With is_canceled in {0, 1} and z >= 0, every group's rate and interval lie in [0, 1] and the
      interval contains the rate. */
  lemma CancellationRowBounds<K>(rows: seq<(Option<K>, int)>, k: K, lib: SciPy)
    requires KeyCount(rows, k) > 0
    requires forall i :: 0 <= i < |rows| ==> 0 <= rows[i].1 <= 1
    requires SqrtIsRoot(lib) && ZScore(0.95, lib) >= 0.0
    ensures var m := MetricsRow(rows, k, lib);
      && 0 <= m.cancelaciones <= m.totalReservas && 0 <= m.noCanceladas
      && 0.0 <= m.ciLower <= m.tasaCancelacion <= m.ciUpper <= 1.0
      && 0.0 <= m.tasaConfirmacion <= 1.0
  {
    CanceledSumBounds(rows, k);
    ProportionCIBounds(CanceledSum(rows, k), KeyCount(rows, k), 0.95, lib);
  }

  // ---------------------------------------------------------------------------
  // analyze_feature_importance

  datatype ScoreKind = CramersVScore | Correlation {
    function Text(): string {
      match this
      case CramersVScore => "Cramér's V"
      case Correlation => "Correlación"
    }
  }

  datatype ImportanceRow = ImportanceRow(feature: string, importanceScore: real, testType: ScoreKind, interpretation: Importance)

  /** A categorical feature's score: Cramér's V between the feature and the target. */
  function CategoricalScore(labels: seq<Option<string>>, target: seq<int>, lib: SciPy): real
    requires |labels| == |target|
  {
    PerformChiSquareTest(Zip(labels, Lift(target)), lib).cramersV
  }

  /** A numeric feature's score: the absolute point-biserial correlation with the target, missing
      values filled by the median of the present ones. */
  function NumericScore(values: seq<Option<real>>, target: seq<int>, lib: SciPy): (v: real)
    requires |values| == |target|
    ensures v >= 0.0
  {
    Abs(lib.pointBiserialR(IntsToReals(target), FillNa(values, lib.median(Present(values)))))
  }

  /** One feature's row: a categorical column is scored by Cramér's V, any other by correlation. */
  function ScoreFeature(target: seq<int>, f: NamedColumn, lib: SciPy): (row: ImportanceRow)
    requires f.column.Length() == |target|
    ensures row.feature == f.name
    ensures row.testType == (if f.column.Categorical? then CramersVScore else Correlation)
    ensures row.interpretation == InterpretImportanceScore(row.importanceScore)
    ensures f.column.Categorical? ==> row.importanceScore == CategoricalScore(f.column.labels, target, lib)
    ensures f.column.Numeric? ==> row.importanceScore == NumericScore(f.column.values, target, lib)
  {
    match f.column
    case Categorical(labels) =>
      var score := CategoricalScore(labels, target, lib);
      ImportanceRow(f.name, score, CramersVScore, InterpretImportanceScore(score))
    case Numeric(values) =>
      var score := NumericScore(values, target, lib);
      ImportanceRow(f.name, score, Correlation, InterpretImportanceScore(score))
  }

  /** Scoring against one target. */
  function ScoreAgainst(target: seq<int>, lib: SciPy): NamedColumn --> ImportanceRow {
    (f: NamedColumn) requires f.column.Length() == |target| => ScoreFeature(target, f, lib)
  }

  /** The rows of the features, in input order. */
  function ScoreFeatures(target: seq<int>, features: seq<NamedColumn>, lib: SciPy): (rows: seq<ImportanceRow>)
    requires forall j :: 0 <= j < |features| ==> features[j].column.Length() == |target|
    ensures |rows| == |features|
  {
    MapDefined(ScoreAgainst(target, lib), features)
  }

  function ImportanceOf(row: ImportanceRow): real { row.importanceScore }

  /** `analyze_feature_importance(df, target, features)`: one row per feature, ranked by score.
      With no feature the frame has no `importance_score` column and sorting by it fails. */
  method AnalyzeFeatureImportance(target: seq<int>, features: seq<NamedColumn>, lib: SciPy) returns (ranking: seq<ImportanceRow>)
    requires |features| > 0
    requires forall j :: 0 <= j < |features| ==> features[j].column.Length() == |target|
    ensures multiset(ranking) == multiset(ScoreFeatures(target, features, lib))
    ensures |ranking| == |features|
    ensures NonIncreasing(ranking, ImportanceOf)
  {
    var scores: seq<ImportanceRow> := [];
    var i := 0;
    while i < |features|
      invariant 0 <= i <= |features|
      invariant scores == ScoreFeatures(target, features[..i], lib)
    {
      MapDefinedSnoc(ScoreAgainst(target, lib), features, i);
      scores := scores + [ScoreFeature(target, features[i], lib)];
      i := i + 1;
    }
    assert features[..i] == features;
    ranking := SortByDesc(scores, ImportanceOf);
    assert |ranking| == |multiset(ranking)| == |scores|;
  }

  /** Every feature's row appears in the ranking; every ranked row carries its own score's
      label and, with a genuine square root and a non-negative chi-square statistic, a
      non-negative score. */
  lemma RankedRowsLabelled(target: seq<int>, features: seq<NamedColumn>, lib: SciPy, ranking: seq<ImportanceRow>)
    requires forall j :: 0 <= j < |features| ==> features[j].column.Length() == |target|
    requires multiset(ranking) == multiset(ScoreFeatures(target, features, lib))
    ensures forall r :: r in ranking ==> r.interpretation == InterpretImportanceScore(r.importanceScore)
    ensures SqrtIsRoot(lib) && Chi2NonNegative(lib) ==> forall r :: r in ranking ==> r.importanceScore >= 0.0
    ensures forall j :: 0 <= j < |features| ==> ScoreFeature(target, features[j], lib) in ranking
  {
    var scores := ScoreFeatures(target, features, lib);
    MapDefinedMembers(ScoreAgainst(target, lib), features, ranking);
    forall r | r in ranking
      ensures r.interpretation == InterpretImportanceScore(r.importanceScore)
      ensures SqrtIsRoot(lib) && Chi2NonNegative(lib) ==> r.importanceScore >= 0.0
    {
      assert r in multiset(scores);
      var j :| 0 <= j < |scores| && scores[j] == r;
      MapDefinedAt(ScoreAgainst(target, lib), features, j);
      if SqrtIsRoot(lib) && Chi2NonNegative(lib) {
        FeatureScoreNonNegative(target, features[j], lib);
      }
    }
  }

  /** With a genuine square root and a non-negative chi-square statistic, every score is non-negative. */
  lemma FeatureScoreNonNegative(target: seq<int>, f: NamedColumn, lib: SciPy)
    requires f.column.Length() == |target|
    requires SqrtIsRoot(lib) && Chi2NonNegative(lib)
    ensures ScoreFeature(target, f, lib).importanceScore >= 0.0
  {
    if f.column.Categorical? {
      ChiSquareCramersVBounds(Zip(f.column.labels, Lift(target)), lib);
    }
  }
}
