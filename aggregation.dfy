/** Aggregation of a country matrix by region (`build_reg_matrix`) and
    normalisation of a matrix by its row or column sums (`get_relative_matrix`).
    The correspondence table gives, for every country of the registry, its
    name and its label in each grouping (a column of the table); a label may
    be missing (NaN). */
module Aggregation {
  import opened Common
  import opened Matrices

  // ---------------------------------------------------------------------------
  // Normalisation

  /** `axis=0` divides each column by its sum, `axis=1` each row by its sum. */
  datatype Axis = PerColumn | PerRow

  /** A zero sum is replaced by 1 before dividing. */
  function Divisor(s: real): (d: real)
    ensures d != 0.0
    ensures s != 0.0 ==> d == s
  {
    if s == 0.0 then 1.0 else s
  }

  /** get_relative_matrix: every entry divided by the (non-zero) sum of its row
      or of its column. */
  function RelativeMatrix(m: Matrix, rows: nat, cols: nat, axis: Axis): (r: Matrix)
    requires IsMatrix(m, rows, cols)
    ensures IsMatrix(r, rows, cols)
  {
    seq(rows, i requires 0 <= i < rows => seq(cols, j requires 0 <= j < cols =>
      if axis == PerRow then m[i][j] / Divisor(RowSum(m, i)) else m[i][j] / Divisor(ColSum(m, j))))
  }

  /** Each entry times the sum it was divided by gives back the original entry. */
  lemma RelativeEntries(m: Matrix, rows: nat, cols: nat, axis: Axis)
    requires IsMatrix(m, rows, cols)
    ensures var r := RelativeMatrix(m, rows, cols, axis);
      axis == PerRow ==> forall i, j :: 0 <= i < rows && 0 <= j < cols ==> r[i][j] * Divisor(RowSum(m, i)) == m[i][j]
    ensures var r := RelativeMatrix(m, rows, cols, axis);
      axis == PerColumn ==> forall i, j :: 0 <= i < rows && 0 <= j < cols ==> r[i][j] * Divisor(ColSum(m, j)) == m[i][j]
  {
  }

  /** Row normalisation: every row whose sum is not zero sums to 1 afterwards,
      and a row summing to zero is left as it was. */
  lemma RowsSumToOne(m: Matrix, rows: nat, cols: nat, i: nat)
    requires IsMatrix(m, rows, cols) && i < rows
    ensures RowSum(m, i) != 0.0 ==> RowSum(RelativeMatrix(m, rows, cols, PerRow), i) == 1.0
    ensures RowSum(m, i) == 0.0 ==> RelativeMatrix(m, rows, cols, PerRow)[i] == m[i]
  {
    var r := RelativeMatrix(m, rows, cols, PerRow);
    RelativeEntries(m, rows, cols, PerRow);
    var s := RowSum(m, i);
    if s != 0.0 {
      SumScale(m[i], r[i], 1.0 / s);
      assert (1.0 / s) * s == 1.0;
    }
  }

  /** Column normalisation: every column whose sum is not zero sums to 1, and a
      column summing to zero is left as it was. */
  lemma ColumnsSumToOne(m: Matrix, rows: nat, cols: nat, j: nat)
    requires IsMatrix(m, rows, cols) && j < cols
    ensures ColSum(m, j) != 0.0 ==> ColSum(RelativeMatrix(m, rows, cols, PerColumn), j) == 1.0
    ensures ColSum(m, j) == 0.0 ==> Column(RelativeMatrix(m, rows, cols, PerColumn), j) == Column(m, j)
  {
    var r := RelativeMatrix(m, rows, cols, PerColumn);
    RelativeEntries(m, rows, cols, PerColumn);
    var s := ColSum(m, j);
    if s != 0.0 {
      SumScale(Column(m, j), Column(r, j), 1.0 / s);
      assert (1.0 / s) * s == 1.0;
    }
  }

  /** Normalising a second time changes nothing. */
  lemma RelativeIdempotent(m: Matrix, rows: nat, cols: nat, axis: Axis)
    requires IsMatrix(m, rows, cols)
    ensures var r := RelativeMatrix(m, rows, cols, axis);
      RelativeMatrix(r, rows, cols, axis) == r
  {
    var r := RelativeMatrix(m, rows, cols, axis);
    var rr := RelativeMatrix(r, rows, cols, axis);
    RelativeEntries(m, rows, cols, axis);
    RelativeEntries(r, rows, cols, axis);
    if axis == PerRow {
      forall i | 0 <= i < rows ensures Divisor(RowSum(r, i)) == 1.0 || r[i] == m[i] {
        RowsSumToOne(m, rows, cols, i);
      }
      forall i, j | 0 <= i < rows && 0 <= j < cols ensures rr[i][j] == r[i][j] {
        RowsSumToOne(m, rows, cols, i);
        if RowSum(m, i) == 0.0 {
          assert r[i] == m[i];
          assert RowSum(r, i) == 0.0;
        }
      }
    } else {
      forall i, j | 0 <= i < rows && 0 <= j < cols ensures rr[i][j] == r[i][j] {
        ColumnsSumToOne(m, rows, cols, j);
        if ColSum(m, j) == 0.0 {
          assert Column(r, j) == Column(m, j);
          assert ColSum(r, j) == 0.0;
        }
      }
    }
    MatrixEqual(rr, r, rows, cols);
  }

  /** With non-negative entries, every normalised entry is a share in [0, 1]. */
  lemma RelativeShares(m: Matrix, rows: nat, cols: nat, axis: Axis)
    requires IsMatrix(m, rows, cols) && NonNegative(m)
    ensures forall i, j :: 0 <= i < rows && 0 <= j < cols ==> 0.0 <= RelativeMatrix(m, rows, cols, axis)[i][j] <= 1.0
  {
    forall i, j | 0 <= i < rows && 0 <= j < cols ensures 0.0 <= RelativeMatrix(m, rows, cols, axis)[i][j] <= 1.0 {
      EntryShare(m, rows, cols, axis, i, j);
    }
  }

  lemma EntryShare(m: Matrix, rows: nat, cols: nat, axis: Axis, i: nat, j: nat)
    requires IsMatrix(m, rows, cols) && NonNegative(m) && i < rows && j < cols
    ensures 0.0 <= RelativeMatrix(m, rows, cols, axis)[i][j] <= 1.0
  {
    if axis == PerRow {
      RowEntryShare(m, rows, cols, i, j);
    } else {
      ColumnEntryShare(m, rows, cols, i, j);
    }
  }

  lemma RowEntryShare(m: Matrix, rows: nat, cols: nat, i: nat, j: nat)
    requires IsMatrix(m, rows, cols) && NonNegative(m) && i < rows && j < cols
    ensures 0.0 <= RelativeMatrix(m, rows, cols, PerRow)[i][j] <= 1.0
  {
    EntryWithinSum(m[i], j);
    ShareOfSum(m[i][j], RowSum(m, i), RelativeMatrix(m, rows, cols, PerRow)[i][j]);
  }

  lemma ColumnEntryShare(m: Matrix, rows: nat, cols: nat, i: nat, j: nat)
    requires IsMatrix(m, rows, cols) && NonNegative(m) && i < rows && j < cols
    ensures 0.0 <= RelativeMatrix(m, rows, cols, PerColumn)[i][j] <= 1.0
  {
    assert Column(m, j)[i] == m[i][j];
    EntryWithinSum(Column(m, j), i);
    ShareOfSum(m[i][j], ColSum(m, j), RelativeMatrix(m, rows, cols, PerColumn)[i][j]);
  }

  lemma ShareOfSum(x: real, s: real, q: real)
    requires 0.0 <= x <= s && q == x / Divisor(s)
    ensures 0.0 <= q <= 1.0
  {
  }

  /** An entry of a non-negative vector is at most its sum. */
  lemma EntryWithinSum(v: Vector, k: nat)
    requires NonNegativeVector(v) && k < |v|
    ensures 0.0 <= v[k] <= Sum(v)
  {
    var rest := v[k := 0.0];
    SumUpdate(v, k, 0.0);
    SumNonNegative(rest);
  }

  // ---------------------------------------------------------------------------
  // Region lists

  /** Python's `<` on strings: lexicographic by code point. */
  predicate LexLess(a: string, b: string)
  {
    |b| > 0 && (|a| == 0 || a[0] < b[0] || (a[0] == b[0] && LexLess(a[1..], b[1..])))
  }

  lemma LexIrreflexive(a: string)
    ensures !LexLess(a, a)
  {
  }

  lemma {:induction false} LexTotal(a: string, b: string)
    requires a != b
    ensures LexLess(a, b) || LexLess(b, a)
  {
    if |a| > 0 && |b| > 0 && a[0] == b[0] {
      assert a == [a[0]] + a[1..] && b == [b[0]] + b[1..];
      LexTotal(a[1..], b[1..]);
    }
  }

  lemma {:induction false} LexTransitive(a: string, b: string, c: string)
    requires LexLess(a, b) && LexLess(b, c)
    ensures LexLess(a, c)
  {
    if |a| > 0 && a[0] == b[0] && b[0] == c[0] {
      LexTransitive(a[1..], b[1..], c[1..]);
    }
  }

  /** Strictly increasing, hence without duplicates. */
  predicate StrictlySorted(s: seq<string>)
  {
    forall p, q :: 0 <= p < q < |s| ==> LexLess(s[p], s[q])
  }

  /** Inserting a label into a strictly sorted list of distinct labels. */
  function Insert(s: seq<string>, x: string): (r: seq<string>)
    requires StrictlySorted(s)
    ensures StrictlySorted(r)
    ensures forall y :: y in r <==> y in s || y == x
  {
    if |s| == 0 then [x]
    else if x == s[0] then s
    else if LexLess(x, s[0]) then
      assert forall q :: 0 < q < |s| ==> LexLess(x, s[q]) by {
        forall q | 0 < q < |s| ensures LexLess(x, s[q]) {
          LexTransitive(x, s[0], s[q]);
        }
      }
      [x] + s
    else
      LexTotal(x, s[0]);
      var t := Insert(s[1..], x);
      assert forall y :: y in s[1..] ==> LexLess(s[0], y);
      [s[0]] + t
  }

  /** `sorted(set(xs))`. */
  function SortedDistinct(xs: seq<string>): (r: seq<string>)
    ensures StrictlySorted(r)
    ensures forall y :: y in r <==> y in xs
  {
    if |xs| == 0 then []
    else
      var r := Insert(SortedDistinct(xs[..|xs| - 1]), xs[|xs| - 1]);
      assert forall y :: y in xs <==> y in xs[..|xs| - 1] || y == xs[|xs| - 1] by {
        assert xs == xs[..|xs| - 1] + [xs[|xs| - 1]];
      }
      r
  }

  /** A label of the table: a region name, or NaN. */
  type Label = Option<string>

  function Present(labels: seq<Label>): (names: seq<string>)
    ensures forall y :: y in names <==> Some(y) in labels
  {
    if |labels| == 0 then []
    else
      var init := Present(labels[..|labels| - 1]);
      var last := labels[|labels| - 1];
      assert labels == labels[..|labels| - 1] + [last];
      if last.Some? then init + [last.value] else init
  }

  function Wrap(names: seq<string>): (r: seq<Label>)
    ensures |r| == |names| && forall k :: 0 <= k < |names| ==> r[k] == Some(names[k])
  {
    seq(|names|, k requires 0 <= k < |names| => Some(names[k]))
  }

  /** `sorted(column.unique().tolist())`: the distinct labels in increasing
      order. A single NaN sorts without comparison; NaN beside a name cannot
      be compared with it and raises TypeError. */
  function RegionList(labels: seq<Label>): (r: Result<seq<Label>>)
    ensures r.Failure? <==> (None in labels && exists y :: Some(y) in labels)
    ensures r.Failure? ==> r.error == TypeError
    ensures r.Success? && None in labels ==> r.value == [None]
    ensures r.Success? && None !in labels ==>
      && (forall g :: g in r.value <==> g in labels)
      && Distinct(r.value)
      && forall p, q :: 0 <= p < q < |r.value| ==> LexLess(r.value[p].value, r.value[q].value)
  {
    var names := Present(labels);
    if None in labels && |names| > 0 then
      assert Some(names[0]) in labels;
      Failure(TypeError)
    else if None in labels then
      Success([None])
    else
      var sorted := SortedDistinct(names);
      var r := Wrap(sorted);
      assert forall g :: g in labels ==> g.Some?;
      assert forall g :: g in r <==> g in labels by {
        forall g ensures g in r <==> g in labels {
          if g in labels {
            assert g.value in sorted;
            var k :| 0 <= k < |sorted| && sorted[k] == g.value;
            assert r[k] == g;
          }
        }
      }
      forall p, q | 0 <= p < q < |r| ensures r[p] != r[q] {
        LexIrreflexive(sorted[p]);
      }
      Success(r)
  }

  // ---------------------------------------------------------------------------
  // Sums by region

  /** `xs[reg_index].sum()` where `reg_index` holds the countries whose label
      equals `region`. NaN equals nothing, not even NaN. */
  function RegionSum(xs: Vector, labels: seq<Label>, region: Label): real
    requires |xs| == |labels|
  {
    if region.None? then 0.0 else GroupSum(xs, labels, region)
  }

  /** Row aggregation: row r sums the rows of the countries labelled `regions[r]`. */
  function RowAggregate(m: Matrix, n: nat, cols: nat, labels: seq<Label>, regions: seq<Label>): (a: Matrix)
    requires IsMatrix(m, n, cols) && |labels| == n
    ensures IsMatrix(a, |regions|, cols)
  {
    seq(|regions|, r requires 0 <= r < |regions| =>
      seq(cols, j requires 0 <= j < cols => RegionSum(Column(m, j), labels, regions[r])))
  }

  /** Column aggregation: column r sums the columns of the countries labelled `regions[r]`. */
  function ColumnAggregate(m: Matrix, rows: nat, n: nat, labels: seq<Label>, regions: seq<Label>): (a: Matrix)
    requires IsMatrix(m, rows, n) && |labels| == n
    ensures IsMatrix(a, rows, |regions|)
  {
    seq(rows, i requires 0 <= i < rows =>
      seq(|regions|, r requires 0 <= r < |regions| => RegionSum(m[i], labels, regions[r])))
  }

  /** The loop over the region list that fills a zero matrix one row at a time. */
  method AggregateRows(m: Matrix, n: nat, cols: nat, labels: seq<Label>, regions: seq<Label>) returns (a: Matrix)
    requires IsMatrix(m, n, cols) && |labels| == n
    ensures a == RowAggregate(m, n, cols, labels, regions)
  {
    a := ZeroMatrix(|regions|, cols);
    for r := 0 to |regions|
      invariant IsMatrix(a, |regions|, cols)
      invariant forall q :: 0 <= q < r ==> a[q] == RowAggregate(m, n, cols, labels, regions)[q]
    {
      var row := seq(cols, j requires 0 <= j < cols => RegionSum(Column(m, j), labels, regions[r]));
      a := a[r := row];
    }
  }

  /** The loop over the region list that fills a zero matrix one column at a time. */
  method AggregateColumns(m: Matrix, rows: nat, n: nat, labels: seq<Label>, regions: seq<Label>) returns (a: Matrix)
    requires IsMatrix(m, rows, n) && |labels| == n
    ensures a == ColumnAggregate(m, rows, n, labels, regions)
  {
    a := ZeroMatrix(rows, |regions|);
    for r := 0 to |regions|
      invariant IsMatrix(a, rows, |regions|)
      invariant forall i, q :: 0 <= i < rows && 0 <= q < r ==> a[i][q] == RegionSum(m[i], labels, regions[q])
    {
      a := seq(rows, i requires 0 <= i < rows => a[i][r := RegionSum(m[i], labels, regions[r])]);
    }
    MatrixEqual(a, ColumnAggregate(m, rows, n, labels, regions), rows, |regions|);
  }

  /** Aggregating the rows by distinct regions that cover every country's
      label keeps every column total, hence the grand total. */
  lemma RowAggregateTotal(m: Matrix, n: nat, cols: nat, labels: seq<Label>, regions: seq<Label>)
    requires IsMatrix(m, n, cols) && |labels| == n && Distinct(regions)
    requires forall c :: 0 <= c < n ==> labels[c].Some? && labels[c] in regions
    ensures forall j :: 0 <= j < cols ==> ColSum(RowAggregate(m, n, cols, labels, regions), j) == ColSum(m, j)
    ensures Total(RowAggregate(m, n, cols, labels, regions)) == Total(m)
  {
    var a := RowAggregate(m, n, cols, labels, regions);
    forall j | 0 <= j < cols ensures ColSum(a, j) == ColSum(m, j) {
      forall r | 0 <= r < |regions| ensures Column(a, j)[r] == GroupSum(Column(m, j), labels, regions[r]) {
        if regions[r].None? {
          NoneUnmatched(Column(m, j), labels);
        }
      }
      GroupSumsPartition(Column(m, j), labels, regions, Column(a, j));
      CoveredSumAll(Column(m, j), labels, regions);
    }
    TotalByColumns(a, |regions|, cols);
    TotalByColumns(m, n, cols);
    assert ColSums(a, cols) == ColSums(m, cols);
  }

  /** The same for the columns: every row total, hence the grand total, is kept. */
  lemma ColumnAggregateTotal(m: Matrix, rows: nat, n: nat, labels: seq<Label>, regions: seq<Label>)
    requires IsMatrix(m, rows, n) && |labels| == n && Distinct(regions)
    requires forall c :: 0 <= c < n ==> labels[c].Some? && labels[c] in regions
    ensures forall i :: 0 <= i < rows ==> RowSum(ColumnAggregate(m, rows, n, labels, regions), i) == RowSum(m, i)
    ensures Total(ColumnAggregate(m, rows, n, labels, regions)) == Total(m)
  {
    var a := ColumnAggregate(m, rows, n, labels, regions);
    forall i | 0 <= i < rows ensures RowSum(a, i) == RowSum(m, i) && RowSums(a)[i] == RowSums(m)[i] {
      forall r | 0 <= r < |regions| ensures a[i][r] == GroupSum(m[i], labels, regions[r]) {
        if regions[r].None? {
          NoneUnmatched(m[i], labels);
        }
      }
      GroupSumsPartition(m[i], labels, regions, a[i]);
      CoveredSumAll(m[i], labels, regions);
    }
    assert RowSums(a) == RowSums(m);
  }

  /** When every label is present, no country carries the NaN label. */
  lemma {:induction false} NoneUnmatched(xs: Vector, labels: seq<Label>)
    requires |xs| == |labels| && forall c :: 0 <= c < |labels| ==> labels[c].Some?
    ensures GroupSum(xs, labels, None) == 0.0
  {
    if |xs| > 0 {
      NoneUnmatched(xs[..|xs| - 1], labels[..|labels| - 1]);
    }
  }

  /** The correspondence table: the countries' English names and, per
      grouping name, the column of their labels. */
  datatype Correspondence = Correspondence(names: seq<string>, groupings: map<string, seq<Label>>)

  predicate WellFormed(t: Correspondence)
  {
    forall g :: g in t.groupings ==> |t.groupings[g]| == |t.names|
  }

  /** The aggregated matrix and the names of its rows and columns (region
      labels, or country names). */
  datatype Aggregate = Aggregate(matrix: Matrix, rowNames: seq<Label>, colNames: seq<Label>)

  /** The column of a requested grouping; a name the table lacks is a KeyError. */
  function GroupingColumn(t: Correspondence, g: string): (r: Result<seq<Label>>)
    requires WellFormed(t)
    ensures r.Success? <==> g in t.groupings
    ensures r.Success? ==> |r.value| == |t.names|
    ensures r.Failure? ==> r.error == KeyError
  {
    if g in t.groupings then Success(t.groupings[g]) else Failure(KeyError)
  }

  /** A grouping's column and its region list, with the errors of each step. */
  function Regions(t: Correspondence, g: string): (r: Result<(seq<Label>, seq<Label>)>)
    requires WellFormed(t)
    ensures r.Success? ==> |r.value.0| == |t.names| && RegionList(r.value.0) == Success(r.value.1)
    ensures r.Failure? ==> r.error in {KeyError, TypeError}
  {
    match GroupingColumn(t, g)
    case Failure(e) => Failure(e)
    case Success(labels) =>
      match RegionList(labels)
      case Failure(e) => Failure(e)
      case Success(regions) => Success((labels, regions))
  }

  /** build_reg_matrix over the registry of the table, as a value: the rows,
      the columns or both aggregated by the requested groupings, the column
      grouping looked up first when both are. With no grouping at all the
      matrix is never assigned and returning it raises NameError. */
  function RegMatrix(m: Matrix, t: Correspondence, colGrouping: Option<string>, rowGrouping: Option<string>): (r: Result<Aggregate>)
    requires WellFormed(t) && IsSquare(m, |t.names|)
    ensures colGrouping.None? && rowGrouping.None? ==> r == Failure(NameError)
    ensures r.Success? ==> IsMatrix(r.value.matrix, |r.value.rowNames|, |r.value.colNames|)
    ensures r.Failure? && (colGrouping.Some? || rowGrouping.Some?) ==> r.error in {KeyError, TypeError}
  {
    var n := |t.names|;
    match (colGrouping, rowGrouping)
    case (None, None) => Failure(NameError)
    case (None, Some(g)) =>
      (match Regions(t, g)
       case Failure(e) => Failure(e)
       case Success((labels, regions)) =>
         Success(Aggregate(RowAggregate(m, n, n, labels, regions), regions, Wrap(t.names))))
    case (Some(g), None) =>
      (match Regions(t, g)
       case Failure(e) => Failure(e)
       case Success((labels, regions)) =>
         Success(Aggregate(ColumnAggregate(m, n, n, labels, regions), Wrap(t.names), regions)))
    case (Some(gc), Some(gr)) =>
      (match Regions(t, gc)
       case Failure(e) => Failure(e)
       case Success((colLabels, colRegions)) =>
         match Regions(t, gr)
         case Failure(e) => Failure(e)
         case Success((rowLabels, rowRegions)) =>
           var rowsDone := RowAggregate(m, n, n, rowLabels, rowRegions);
           Success(Aggregate(ColumnAggregate(rowsDone, |rowRegions|, n, colLabels, colRegions), rowRegions, colRegions)))
  }

  /** build_reg_matrix, step by step: it looks up the grouping columns, sorts
      their labels and runs the aggregation loops. */
  method BuildRegMatrix(m: Matrix, t: Correspondence, colGrouping: Option<string>, rowGrouping: Option<string>)
    returns (r: Result<Aggregate>)
    requires WellFormed(t) && IsSquare(m, |t.names|)
    ensures r == RegMatrix(m, t, colGrouping, rowGrouping)
  {
    var n := |t.names|;
    if colGrouping.None? && rowGrouping.Some? {
      var found := Regions(t, rowGrouping.value);
      if found.Failure? { return Failure(found.error); }
      var a := AggregateRows(m, n, n, found.value.0, found.value.1);
      r := Success(Aggregate(a, found.value.1, Wrap(t.names)));
    } else if colGrouping.Some? && rowGrouping.None? {
      var found := Regions(t, colGrouping.value);
      if found.Failure? { return Failure(found.error); }
      var a := AggregateColumns(m, n, n, found.value.0, found.value.1);
      r := Success(Aggregate(a, Wrap(t.names), found.value.1));
    } else if colGrouping.Some? && rowGrouping.Some? {
      var cols := Regions(t, colGrouping.value);
      if cols.Failure? { return Failure(cols.error); }
      var rows := Regions(t, rowGrouping.value);
      if rows.Failure? { return Failure(rows.error); }
      var temp := AggregateRows(m, n, n, rows.value.0, rows.value.1);
      var a := AggregateColumns(temp, |rows.value.1|, n, cols.value.0, cols.value.1);
      r := Success(Aggregate(a, rows.value.1, cols.value.1));
    } else {
      r := Failure(NameError);
    }
  }

  /** When every country of the registry carries a label in the requested
      groupings, aggregation preserves the grand total. */
  lemma RegMatrixTotal(m: Matrix, t: Correspondence, colGrouping: Option<string>, rowGrouping: Option<string>)
    requires WellFormed(t) && IsSquare(m, |t.names|)
    requires colGrouping.Some? ==> colGrouping.value in t.groupings && None !in t.groupings[colGrouping.value]
    requires rowGrouping.Some? ==> rowGrouping.value in t.groupings && None !in t.groupings[rowGrouping.value]
    requires colGrouping.Some? || rowGrouping.Some?
    ensures RegMatrix(m, t, colGrouping, rowGrouping).Success?
    ensures Total(RegMatrix(m, t, colGrouping, rowGrouping).value.matrix) == Total(m)
  {
    var n := |t.names|;
    if rowGrouping.Some? {
      var labels := t.groupings[rowGrouping.value];
      var regions := RegionList(labels).value;
      RowAggregateTotal(m, n, n, labels, regions);
      if colGrouping.Some? {
        var colLabels := t.groupings[colGrouping.value];
        ColumnAggregateTotal(RowAggregate(m, n, n, labels, regions), |regions|, n, colLabels, RegionList(colLabels).value);
      }
    } else {
      var labels := t.groupings[colGrouping.value];
      ColumnAggregateTotal(m, n, n, labels, RegionList(labels).value);
    }
  }

  /** A grouping whose every label is NaN yields a single region that no
      country matches: the aggregated row holds nothing. */
  lemma UnlabelledCountriesDropped(m: Matrix, t: Correspondence, g: string)
    requires WellFormed(t) && IsSquare(m, |t.names|) && |t.names| > 0
    requires g in t.groupings && forall c :: 0 <= c < |t.names| ==> t.groupings[g][c].None?
    ensures RegMatrix(m, t, None, Some(g)).Success?
    ensures var a := RegMatrix(m, t, None, Some(g)).value;
      a.rowNames == [None] && forall j :: 0 <= j < |t.names| ==> a.matrix[0][j] == 0.0
  {
    assert t.groupings[g][0] == None;
  }
}
