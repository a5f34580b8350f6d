/** Real-valued vectors and matrices, the sums the material-flow code takes over
    them (`sum(axis=0)`, `sum(axis=1)`, `sum()`), and the facts about those sums
    that the rest of the model relies on. A matrix is a sequence of rows. */
module Matrices {

  type Vector = seq<real>
  type Matrix = seq<Vector>

  /** The sum of a vector, peeling off the last element, so that a loop that
      adds element by element keeps `acc == Sum(s[..k])`. */
  function Sum(s: Vector): real
  {
    if |s| == 0 then 0.0 else Sum(s[..|s| - 1]) + s[|s| - 1]
  }

  predicate IsMatrix(m: Matrix, rows: nat, cols: nat)
  {
    |m| == rows && forall i :: 0 <= i < rows ==> |m[i]| == cols
  }

  predicate IsSquare(m: Matrix, n: nat)
  {
    IsMatrix(m, n, n)
  }

  predicate NonNegative(m: Matrix)
  {
    forall i, j :: 0 <= i < |m| && 0 <= j < |m[i]| ==> m[i][j] >= 0.0
  }

  predicate NonNegativeVector(v: Vector)
  {
    forall i :: 0 <= i < |v| ==> v[i] >= 0.0
  }

  /** Every entry off the main diagonal is 0. */
  predicate IsDiagonal(m: Matrix)
  {
    forall i, j :: 0 <= i < |m| && 0 <= j < |m[i]| && i != j ==> m[i][j] == 0.0
  }

  function Column(m: Matrix, j: nat): (c: Vector)
    requires forall i :: 0 <= i < |m| ==> j < |m[i]|
    ensures |c| == |m| && forall i :: 0 <= i < |m| ==> c[i] == m[i][j]
  {
    seq(|m|, i requires 0 <= i < |m| => m[i][j])
  }

  /** `m.sum(axis=1)[i]`: the sum of row i. */
  function RowSum(m: Matrix, i: nat): real
    requires i < |m|
  {
    Sum(m[i])
  }

  /** `m.sum(axis=0)[j]`: the sum of column j. */
  function ColSum(m: Matrix, j: nat): real
    requires forall i :: 0 <= i < |m| ==> j < |m[i]|
  {
    Sum(Column(m, j))
  }

  function RowSums(m: Matrix): (r: Vector)
    ensures |r| == |m| && forall i :: 0 <= i < |m| ==> r[i] == Sum(m[i])
  {
    seq(|m|, i requires 0 <= i < |m| => Sum(m[i]))
  }

  function ColSums(m: Matrix, cols: nat): (r: Vector)
    requires forall i :: 0 <= i < |m| ==> |m[i]| == cols
    ensures |r| == cols && forall j :: 0 <= j < cols ==> r[j] == ColSum(m, j)
  {
    seq(cols, j requires 0 <= j < cols => ColSum(m, j))
  }

  /** `m.sum()`: the sum of every entry. */
  function Total(m: Matrix): real
  {
    Sum(RowSums(m))
  }

  function Zeros(n: nat): (v: Vector)
    ensures |v| == n && forall i :: 0 <= i < n ==> v[i] == 0.0
  {
    seq(n, i => 0.0)
  }

  function ZeroMatrix(rows: nat, cols: nat): (m: Matrix)
    ensures IsMatrix(m, rows, cols)
    ensures forall i, j :: 0 <= i < rows && 0 <= j < cols ==> m[i][j] == 0.0
  {
    seq(rows, i => Zeros(cols))
  }

  function Identity(n: nat): (m: Matrix)
    ensures IsSquare(m, n)
    ensures forall i, j :: 0 <= i < n && 0 <= j < n ==> m[i][j] == if i == j then 1.0 else 0.0
  {
    seq(n, i => seq(n, j => if i == j then 1.0 else 0.0))
  }

  function Add(a: Matrix, b: Matrix, rows: nat, cols: nat): (m: Matrix)
    requires IsMatrix(a, rows, cols) && IsMatrix(b, rows, cols)
    ensures IsMatrix(m, rows, cols)
    ensures forall i, j :: 0 <= i < rows && 0 <= j < cols ==> m[i][j] == a[i][j] + b[i][j]
  {
    seq(rows, i requires 0 <= i < rows => seq(cols, j requires 0 <= j < cols => a[i][j] + b[i][j]))
  }

  function Subtract(a: Matrix, b: Matrix, rows: nat, cols: nat): (m: Matrix)
    requires IsMatrix(a, rows, cols) && IsMatrix(b, rows, cols)
    ensures IsMatrix(m, rows, cols)
    ensures forall i, j :: 0 <= i < rows && 0 <= j < cols ==> m[i][j] == a[i][j] - b[i][j]
  {
    seq(rows, i requires 0 <= i < rows => seq(cols, j requires 0 <= j < cols => a[i][j] - b[i][j]))
  }

  function Scale(c: real, a: Matrix, rows: nat, cols: nat): (m: Matrix)
    requires IsMatrix(a, rows, cols)
    ensures IsMatrix(m, rows, cols)
    ensures forall i, j :: 0 <= i < rows && 0 <= j < cols ==> m[i][j] == c * a[i][j]
  {
    seq(rows, i requires 0 <= i < rows => seq(cols, j requires 0 <= j < cols => c * a[i][j]))
  }

  /** The i-th term vector of the product entry (a·b)[i][j]. */
  function ProductTerms(a: Matrix, b: Matrix, i: nat, j: nat, inner: nat): (t: Vector)
    requires i < |a| && |a[i]| == inner && |b| == inner
    requires forall k :: 0 <= k < inner ==> j < |b[k]|
    ensures |t| == inner && forall k :: 0 <= k < inner ==> t[k] == a[i][k] * b[k][j]
  {
    seq(inner, k requires 0 <= k < inner => a[i][k] * b[k][j])
  }

  /** The matrix product a·b of an r×inner and an inner×c matrix. */
  function MatMul(a: Matrix, b: Matrix, r: nat, inner: nat, c: nat): (m: Matrix)
    requires IsMatrix(a, r, inner) && IsMatrix(b, inner, c)
    ensures IsMatrix(m, r, c)
    ensures forall i, j :: 0 <= i < r && 0 <= j < c ==> m[i][j] == Sum(ProductTerms(a, b, i, j, inner))
  {
    seq(r, i requires 0 <= i < r => seq(c, j requires 0 <= j < c => Sum(ProductTerms(a, b, i, j, inner))))
  }

  // ---------------------------------------------------------------------------
  // Facts about Sum

  lemma SumPrefix(s: Vector, k: nat)
    requires k < |s|
    ensures Sum(s[..k + 1]) == Sum(s[..k]) + s[k]
  {
    assert s[..k + 1][..k] == s[..k];
  }

  lemma {:induction false} SumConcat(a: Vector, b: Vector)
    ensures Sum(a + b) == Sum(a) + Sum(b)
  {
    if |b| == 0 {
      assert a + b == a;
    } else {
      assert (a + b)[..|a + b| - 1] == a + b[..|b| - 1];
      SumConcat(a, b[..|b| - 1]);
    }
  }

  lemma {:induction false} SumNonNegative(s: Vector)
    requires NonNegativeVector(s)
    ensures Sum(s) >= 0.0
  {
    if |s| > 0 {
      SumNonNegative(s[..|s| - 1]);
    }
  }

  lemma {:induction false} SumZero(s: Vector)
    requires forall i :: 0 <= i < |s| ==> s[i] == 0.0
    ensures Sum(s) == 0.0
  {
    if |s| > 0 {
      SumZero(s[..|s| - 1]);
    }
  }

  /** Pointwise ≤ carries over to the sums. */
  lemma {:induction false} SumMonotone(a: Vector, b: Vector)
    requires |a| == |b| && forall i :: 0 <= i < |a| ==> a[i] <= b[i]
    ensures Sum(a) <= Sum(b)
  {
    if |a| > 0 {
      SumMonotone(a[..|a| - 1], b[..|b| - 1]);
    }
  }

  /** Sum is linear: the sum of a pointwise sum is the sum of the sums. */
  lemma {:induction false} SumAdd(a: Vector, b: Vector, c: Vector)
    requires |a| == |b| == |c| && forall i :: 0 <= i < |c| ==> c[i] == a[i] + b[i]
    ensures Sum(c) == Sum(a) + Sum(b)
  {
    if |c| > 0 {
      SumAdd(a[..|a| - 1], b[..|b| - 1], c[..|c| - 1]);
    }
  }

  /** A constant factor comes out of a sum. */
  lemma {:induction false} SumScale(s: Vector, t: Vector, c: real)
    requires |s| == |t| && forall i :: 0 <= i < |s| ==> t[i] == c * s[i]
    ensures Sum(t) == c * Sum(s)
  {
    if |s| > 0 {
      SumScale(s[..|s| - 1], t[..|t| - 1], c);
    }
  }

  /** Changing one entry changes the sum by the difference. */
  lemma {:induction false} SumUpdate(s: Vector, k: nat, v: real)
    requires k < |s|
    ensures Sum(s[k := v]) == Sum(s) - s[k] + v
  {
    var n := |s|;
    if k == n - 1 {
      assert s[k := v][..n - 1] == s[..n - 1];
    } else {
      assert s[k := v][..n - 1] == s[..n - 1][k := v];
      SumUpdate(s[..n - 1], k, v);
    }
  }

  /** A vector that is zero except at k sums to its k-th entry. */
  lemma {:induction false} SumSingle(s: Vector, k: nat)
    requires k < |s| && forall i :: 0 <= i < |s| && i != k ==> s[i] == 0.0
    ensures Sum(s) == s[k]
  {
    SumUpdate(s, k, 0.0);
    SumZero(s[k := 0.0]);
  }

  lemma Sum2(s: Vector)
    requires |s| == 2
    ensures Sum(s) == s[0] + s[1]
  {
    assert s[..1] == [s[0]];
    assert Sum([s[0]]) == s[0];
  }

  lemma Sum3(s: Vector)
    requires |s| == 3
    ensures Sum(s) == s[0] + s[1] + s[2]
  {
    assert s[..2][..1] == [s[0]];
    assert s[..2] == [s[0], s[1]];
    assert Sum([s[0]]) == s[0];
  }

  /** Summing all entries by rows or by columns gives the same grand total. */
  lemma {:induction false} TotalByColumns(m: Matrix, rows: nat, cols: nat)
    requires IsMatrix(m, rows, cols)
    ensures Total(m) == Sum(ColSums(m, cols))
  {
    if rows == 0 {
      SumZero(ColSums(m, cols));
      assert RowSums(m) == [];
    } else {
      var init := m[..rows - 1];
      TotalByColumns(init, rows - 1, cols);
      assert RowSums(m)[..rows - 1] == RowSums(init);
      forall j | 0 <= j < cols
        ensures ColSums(m, cols)[j] == ColSums(init, cols)[j] + m[rows - 1][j]
      {
        assert Column(m, j)[..rows - 1] == Column(init, j);
      }
      SumAdd(ColSums(init, cols), m[rows - 1], ColSums(m, cols));
    }
  }

  /** Two matrices of one shape with equal entries are equal. */
  lemma MatrixEqual(a: Matrix, b: Matrix, rows: nat, cols: nat)
    requires IsMatrix(a, rows, cols) && IsMatrix(b, rows, cols)
    requires forall i, j :: 0 <= i < rows && 0 <= j < cols ==> a[i][j] == b[i][j]
    ensures a == b
  {
    forall i | 0 <= i < rows ensures a[i] == b[i] {
      assert forall j :: 0 <= j < cols ==> a[i][j] == b[i][j];
    }
  }

  /** The sums of the rows of b, each weighted by the matching entry of row i of a. */
  function RowWeightedSums(a: Matrix, b: Matrix, inner: nat, i: nat): (v: Vector)
    requires i < |a| && |a[i]| == inner && |b| == inner
    ensures |v| == inner && forall k :: 0 <= k < inner ==> v[k] == a[i][k] * RowSum(b, k)
  {
    seq(inner, k requires 0 <= k < inner => a[i][k] * RowSum(b, k))
  }

  /** Column j of b, each entry weighted by the matching column sum of a. */
  function ColumnWeights(a: Matrix, b: Matrix, inner: nat, j: nat): (v: Vector)
    requires forall i :: 0 <= i < |a| ==> |a[i]| == inner
    requires |b| == inner && forall k :: 0 <= k < inner ==> j < |b[k]|
    ensures |v| == inner && forall k :: 0 <= k < inner ==> v[k] == ColSum(a, k) * b[k][j]
  {
    seq(inner, k requires 0 <= k < inner => ColSum(a, k) * b[k][j])
  }

  /** Row i of a product sums the rows of b weighted by row i of a. */
  lemma RowSumOfProduct(a: Matrix, b: Matrix, r: nat, inner: nat, c: nat, i: nat)
    requires IsMatrix(a, r, inner) && IsMatrix(b, inner, c) && i < r
    ensures RowSum(MatMul(a, b, r, inner, c), i) == Sum(RowWeightedSums(a, b, inner, i))
  {
    var f := seq(c, j requires 0 <= j < c => ProductTerms(a, b, i, j, inner));
    TotalByColumns(f, c, inner);
    assert RowSums(f) == MatMul(a, b, r, inner, c)[i];
    WeightedColumns(a, b, inner, c, i, f);
  }

  lemma WeightedColumns(a: Matrix, b: Matrix, inner: nat, c: nat, i: nat, f: Matrix)
    requires i < |a| && |a[i]| == inner && IsMatrix(b, inner, c)
    requires IsMatrix(f, c, inner) && forall j, k :: 0 <= j < c && 0 <= k < inner ==> f[j][k] == a[i][k] * b[k][j]
    ensures ColSums(f, inner) == RowWeightedSums(a, b, inner, i)
  {
    var v := RowWeightedSums(a, b, inner, i);
    forall k | 0 <= k < inner ensures ColSums(f, inner)[k] == v[k] {
      SumScale(b[k], Column(f, k), a[i][k]);
    }
  }

  /** Column j of a product sums column j of b weighted by the column sums of a. */
  lemma ColSumOfProduct(a: Matrix, b: Matrix, r: nat, inner: nat, c: nat, j: nat)
    requires IsMatrix(a, r, inner) && IsMatrix(b, inner, c) && j < c
    ensures ColSum(MatMul(a, b, r, inner, c), j) == Sum(ColumnWeights(a, b, inner, j))
  {
    var f := seq(r, i requires 0 <= i < r => ProductTerms(a, b, i, j, inner));
    TotalByColumns(f, r, inner);
    assert RowSums(f) == Column(MatMul(a, b, r, inner, c), j);
    ScaledColumns(a, b, r, inner, j, f);
  }

  lemma ScaledColumns(a: Matrix, b: Matrix, r: nat, inner: nat, j: nat, f: Matrix)
    requires IsMatrix(a, r, inner) && |b| == inner && forall k :: 0 <= k < inner ==> j < |b[k]|
    requires IsMatrix(f, r, inner) && forall i, k :: 0 <= i < r && 0 <= k < inner ==> f[i][k] == a[i][k] * b[k][j]
    ensures ColSums(f, inner) == ColumnWeights(a, b, inner, j)
  {
    var v := ColumnWeights(a, b, inner, j);
    forall k | 0 <= k < inner ensures ColSums(f, inner)[k] == v[k] {
      SumScale(Column(a, k), Column(f, k), b[k][j]);
    }
  }

  /** An entry of (I − a)·d is the entry of d less the entry of a·d. */
  lemma IdentityMinusProduct(a: Matrix, d: Matrix, n: nat, i: nat, j: nat)
    requires IsSquare(a, n) && IsSquare(d, n) && i < n && j < n
    ensures MatMul(Subtract(Identity(n), a, n, n), d, n, n, n)[i][j]
         == d[i][j] - Sum(ProductTerms(a, d, i, j, n))
  {
    var terms := ProductTerms(Subtract(Identity(n), a, n, n), d, i, j, n);
    var unit := seq(n, k requires 0 <= k < n => if k == i then d[i][j] else 0.0);
    var minus := seq(n, k requires 0 <= k < n => -(a[i][k] * d[k][j]));
    IdentityMinusTerms(a, d, n, i, j);
    SumSingle(unit, i);
    SumScale(ProductTerms(a, d, i, j, n), minus, -1.0);
    SumAdd(unit, minus, terms);
  }

  lemma IdentityMinusTerms(a: Matrix, d: Matrix, n: nat, i: nat, j: nat)
    requires IsSquare(a, n) && IsSquare(d, n) && i < n && j < n
    ensures forall k :: 0 <= k < n ==>
      ProductTerms(Subtract(Identity(n), a, n, n), d, i, j, n)[k] == (if k == i then d[i][j] else 0.0) + -(a[i][k] * d[k][j])
  {
    var s := Subtract(Identity(n), a, n, n);
    forall k | 0 <= k < n
      ensures ProductTerms(s, d, i, j, n)[k] == (if k == i then d[i][j] else 0.0) + -(a[i][k] * d[k][j])
    {
      var e := if i == k then 1.0 else 0.0;
      assert s[i][k] == e - a[i][k];
      assert (e - a[i][k]) * d[k][j] == e * d[k][j] - a[i][k] * d[k][j];
    }
  }

  /** A nonnegative matrix has nonnegative row sums. */
  lemma RowSumNonNegative(m: Matrix, i: nat)
    requires NonNegative(m) && i < |m|
    ensures RowSum(m, i) >= 0.0
  {
    SumNonNegative(m[i]);
  }

  /** A nonnegative matrix has nonnegative column sums. */
  lemma ColSumNonNegative(m: Matrix, j: nat)
    requires NonNegative(m) && forall i :: 0 <= i < |m| ==> j < |m[i]|
    ensures ColSum(m, j) >= 0.0
  {
    SumNonNegative(Column(m, j));
  }

  // ---------------------------------------------------------------------------
  // Sums over the members of a group (a region, a tag, an ecoinvent location)

  /** The sum of `xs[c]` over the positions c whose label is `g`. */
  function GroupSum<L(==)>(xs: Vector, labels: seq<L>, g: L): real
    requires |xs| == |labels|
  {
    if |xs| == 0 then 0.0
    else GroupSum(xs[..|xs| - 1], labels[..|labels| - 1], g)
         + (if labels[|labels| - 1] == g then xs[|xs| - 1] else 0.0)
  }

  /** The sum of `xs[c]` over the positions c whose label is one of `groups`. */
  function CoveredSum<L(==)>(xs: Vector, labels: seq<L>, groups: seq<L>): real
    requires |xs| == |labels|
  {
    if |xs| == 0 then 0.0
    else CoveredSum(xs[..|xs| - 1], labels[..|labels| - 1], groups)
         + (if labels[|labels| - 1] in groups then xs[|xs| - 1] else 0.0)
  }

  predicate Distinct<L(==)>(s: seq<L>)
  {
    forall a, b :: 0 <= a < b < |s| ==> s[a] != s[b]
  }

  /** Among distinct groups, a label matches at most one: the indicator
      vector of the groups matching one label sums to its value when covered. */
  lemma {:induction false} IndicatorSum<L>(groups: seq<L>, l: L, x: real, ind: Vector)
    requires Distinct(groups) && |ind| == |groups|
    requires forall r :: 0 <= r < |groups| ==> ind[r] == if groups[r] == l then x else 0.0
    ensures Sum(ind) == if l in groups then x else 0.0
  {
    if l in groups {
      var k :| 0 <= k < |groups| && groups[k] == l;
      SumSingle(ind, k);
    } else {
      SumZero(ind);
    }
  }

  /** Summing the group sums over distinct groups adds up exactly the covered
      positions: no position is counted twice, none outside the groups is counted. */
  lemma {:induction false} GroupSumsPartition<L>(xs: Vector, labels: seq<L>, groups: seq<L>, sums: Vector)
    requires |xs| == |labels| && Distinct(groups) && |sums| == |groups|
    requires forall r :: 0 <= r < |groups| ==> sums[r] == GroupSum(xs, labels, groups[r])
    ensures Sum(sums) == CoveredSum(xs, labels, groups)
  {
    if |xs| == 0 {
      SumZero(sums);
    } else {
      var n := |xs|;
      var prev := seq(|groups|, r requires 0 <= r < |groups| => GroupSum(xs[..n - 1], labels[..n - 1], groups[r]));
      var ind := seq(|groups|, r requires 0 <= r < |groups| => if labels[n - 1] == groups[r] then xs[n - 1] else 0.0);
      GroupSumsPartition(xs[..n - 1], labels[..n - 1], groups, prev);
      IndicatorSum(groups, labels[n - 1], xs[n - 1], ind);
      SumAdd(prev, ind, sums);
    }
  }

  /** When every label is one of the groups, the covered sum is the whole sum. */
  lemma {:induction false} CoveredSumAll<L>(xs: Vector, labels: seq<L>, groups: seq<L>)
    requires |xs| == |labels| && forall c :: 0 <= c < |labels| ==> labels[c] in groups
    ensures CoveredSum(xs, labels, groups) == Sum(xs)
  {
    if |xs| > 0 {
      CoveredSumAll(xs[..|xs| - 1], labels[..|labels| - 1], groups);
    }
  }

  /** With nonnegative entries the covered part never exceeds the whole. */
  lemma {:induction false} CoveredSumBounded<L>(xs: Vector, labels: seq<L>, groups: seq<L>)
    requires |xs| == |labels| && NonNegativeVector(xs)
    ensures 0.0 <= CoveredSum(xs, labels, groups) <= Sum(xs)
  {
    if |xs| > 0 {
      CoveredSumBounded(xs[..|xs| - 1], labels[..|labels| - 1], groups);
    }
  }

  /** A group sum is linear in the summed vector. */
  lemma {:induction false} GroupSumAdd<L>(a: Vector, b: Vector, c: Vector, labels: seq<L>, g: L)
    requires |a| == |b| == |c| == |labels|
    requires forall i :: 0 <= i < |c| ==> c[i] == a[i] + b[i]
    ensures GroupSum(c, labels, g) == GroupSum(a, labels, g) + GroupSum(b, labels, g)
  {
    if |c| > 0 {
      var n := |c|;
      GroupSumAdd(a[..n - 1], b[..n - 1], c[..n - 1], labels[..n - 1], g);
    }
  }
}
