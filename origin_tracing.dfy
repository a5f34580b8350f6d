/** Apparent consumption by country of origin, from a trade matrix T (rows
    importers, columns exporters) and a diagonal production matrix P over the
    same registry: the Kastner model, which follows material through chains of
    re-export (`calculate_mat_cons_kastner`), and the direct model, which only
    looks at direct imports (`calculate_mat_cons`). In both results R[i][j] is
    the part of country i's consumption produced in country j. */
module OriginTracing {
  import opened Common
  import opened Matrices

  predicate Inputs(T: Matrix, P: Matrix, n: nat)
  {
    IsSquare(T, n) && IsSquare(P, n)
  }

  /** Domestic material input: production plus imports, `P.sum(axis=1) + T.sum(axis=1)`. */
  function Dmi(T: Matrix, P: Matrix, n: nat): (dmi: Vector)
    requires Inputs(T, P, n)
    ensures |dmi| == n
  {
    seq(n, i requires 0 <= i < n => RowSum(P, i) + RowSum(T, i))
  }

  /** The DMI raised by the inventory change `max(exports − dmi, 0)`, so that
      no country exports more than it has: it is the larger of the two. */
  function AdjustedDmi(T: Matrix, P: Matrix, n: nat): (adj: Vector)
    requires Inputs(T, P, n)
    ensures |adj| == n
    ensures forall i :: 0 <= i < n ==> adj[i] == Max(Dmi(T, P, n)[i], ColSum(T, i))
    ensures forall i :: 0 <= i < n ==> adj[i] >= ColSum(T, i)
  {
    var dmi := Dmi(T, P, n);
    seq(n, i requires 0 <= i < n =>
      var inventory := ColSum(T, i) - dmi[i];
      dmi[i] + (if inventory < 0.0 then 0.0 else inventory))
  }

  /** The adjusted DMI with 0 replaced by 1 (`vec_dmi_adj[vec_dmi_adj==0]=1`),
      so that the diagonal can be inverted. */
  function SafeDmi(T: Matrix, P: Matrix, n: nat): (safe: Vector)
    requires Inputs(T, P, n)
    ensures |safe| == n && forall i :: 0 <= i < n ==> safe[i] != 0.0
  {
    var adj := AdjustedDmi(T, P, n);
    seq(n, i requires 0 <= i < n => if adj[i] == 0.0 then 1.0 else adj[i])
  }

  /** As the source is written: the inverted diagonal with every entry equal
      to 1 forced to 0. This drops the countries whose DMI is exactly 1 along
      with those whose DMI was 0. */
  function InverseDmiAsWritten(T: Matrix, P: Matrix, n: nat): (inv: Vector)
    requires Inputs(T, P, n)
    ensures |inv| == n
  {
    var safe := SafeDmi(T, P, n);
    seq(n, i requires 0 <= i < n => if 1.0 / safe[i] == 1.0 then 0.0 else 1.0 / safe[i])
  }

  /** As evidently intended: only the countries whose adjusted DMI was 0 get 0. */
  function InverseDmi(T: Matrix, P: Matrix, n: nat): (inv: Vector)
    requires Inputs(T, P, n)
    ensures |inv| == n
    ensures forall i :: 0 <= i < n ==> (inv[i] == 0.0 <==> AdjustedDmi(T, P, n)[i] == 0.0)
    ensures forall i :: 0 <= i < n && AdjustedDmi(T, P, n)[i] != 0.0 ==> inv[i] * AdjustedDmi(T, P, n)[i] == 1.0
  {
    var adj := AdjustedDmi(T, P, n);
    seq(n, i requires 0 <= i < n => if adj[i] == 0.0 then 0.0 else 1.0 / adj[i])
  }

  /** The export share matrix `T · diag(inv)`: A[i][j] is the share of j's DMI exported to i. */
  function ExportShares(T: Matrix, inv: Vector, n: nat): (A: Matrix)
    requires IsSquare(T, n) && |inv| == n
    ensures IsSquare(A, n)
    ensures forall i, j :: 0 <= i < n && 0 <= j < n ==> A[i][j] == T[i][j] * inv[j]
  {
    seq(n, i requires 0 <= i < n => seq(n, j requires 0 <= j < n => T[i][j] * inv[j]))
  }

  /** The share of each country's DMI kept for its own consumption,
      `(dmi_adj − exports) / dmi_adj`, over the DMI after the 0 → 1 replacement. */
  function Retention(T: Matrix, P: Matrix, n: nat): (ret: Vector)
    requires Inputs(T, P, n)
    ensures |ret| == n
  {
    var safe := SafeDmi(T, P, n);
    seq(n, i requires 0 <= i < n => (safe[i] - ColSum(T, i)) / safe[i])
  }

  /** D is the DMI by origin: it solves `(I − A) · D = P`, the system `spsolve`
      solves, written entrywise as `D − A·D = P`. */
  predicate SolvesLeontief(A: Matrix, D: Matrix, P: Matrix, n: nat)
    requires IsSquare(A, n)
  {
    && IsSquare(D, n) && IsSquare(P, n)
    && forall i, j {:trigger ProductTerms(A, D, i, j, n)} :: 0 <= i < n && 0 <= j < n ==> D[i][j] - Sum(ProductTerms(A, D, i, j, n)) == P[i][j]
  }

  /** The entrywise form is the matrix equation `(I − A) · D = P`. */
  lemma SolvesLeontiefIsMatrixEquation(A: Matrix, D: Matrix, P: Matrix, n: nat)
    requires IsSquare(A, n) && IsSquare(D, n) && IsSquare(P, n)
    ensures SolvesLeontief(A, D, P, n) <==> MatMul(Subtract(Identity(n), A, n, n), D, n, n, n) == P
  {
    var M := MatMul(Subtract(Identity(n), A, n, n), D, n, n, n);
    if SolvesLeontief(A, D, P, n) {
      forall i, j | 0 <= i < n && 0 <= j < n ensures M[i][j] == P[i][j] {
        IdentityMinusProduct(A, D, n, i, j);
      }
      MatrixEqual(M, P, n, n);
    }
    if M == P {
      forall i, j | 0 <= i < n && 0 <= j < n ensures D[i][j] - Sum(ProductTerms(A, D, i, j, n)) == P[i][j] {
        IdentityMinusProduct(A, D, n, i, j);
      }
    }
  }

  /** `diag(ret) · D`: each row of D scaled by its country's retention share. */
  function Consumption(ret: Vector, D: Matrix, n: nat): (R: Matrix)
    requires |ret| == n && IsSquare(D, n)
    ensures IsSquare(R, n)
    ensures forall i, j :: 0 <= i < n && 0 <= j < n ==> R[i][j] == ret[i] * D[i][j]
  {
    seq(n, i requires 0 <= i < n => seq(n, j requires 0 <= j < n => ret[i] * D[i][j]))
  }

  /** The export shares of the Kastner model with the intended inverse. */
  function Shares(T: Matrix, P: Matrix, n: nat): (A: Matrix)
    requires Inputs(T, P, n)
    ensures IsSquare(A, n)
  {
    ExportShares(T, InverseDmi(T, P, n), n)
  }

  function SharesAsWritten(T: Matrix, P: Matrix, n: nat): (A: Matrix)
    requires Inputs(T, P, n)
    ensures IsSquare(A, n)
  {
    ExportShares(T, InverseDmiAsWritten(T, P, n), n)
  }

  /** The masked assignments of the source, in order: clip the inventory change
      at 0, replace a zero adjusted DMI by 1, invert, and force the inverted
      entries equal to 1 to 0; then the retention shares. */
  method KastnerVectors(T: Matrix, P: Matrix, n: nat) returns (adj: Vector, inv: Vector, ret: Vector)
    requires Inputs(T, P, n)
    ensures adj == SafeDmi(T, P, n)
    ensures inv == InverseDmiAsWritten(T, P, n)
    ensures ret == Retention(T, P, n)
  {
    var dmi := Dmi(T, P, n);
    var inventory := seq(n, i requires 0 <= i < n => ColSum(T, i) - dmi[i]);
    for i := 0 to n
      invariant |inventory| == n
      invariant forall q :: 0 <= q < n ==> inventory[q] == if q < i && ColSum(T, q) - dmi[q] < 0.0 then 0.0 else ColSum(T, q) - dmi[q]
    {
      if inventory[i] < 0.0 {
        inventory := inventory[i := 0.0];
      }
    }
    adj := seq(n, i requires 0 <= i < n => dmi[i] + inventory[i]);
    assert adj == AdjustedDmi(T, P, n);
    for i := 0 to n
      invariant |adj| == n
      invariant forall q :: 0 <= q < n ==> adj[q] == if q < i && AdjustedDmi(T, P, n)[q] == 0.0 then 1.0 else AdjustedDmi(T, P, n)[q]
    {
      if adj[i] == 0.0 {
        adj := adj[i := 1.0];
      }
    }
    assert adj == SafeDmi(T, P, n);
    inv := seq(n, i requires 0 <= i < n => 1.0 / adj[i]);
    for i := 0 to n
      invariant |inv| == n
      invariant forall q :: 0 <= q < n ==> inv[q] == if q < i && 1.0 / adj[q] == 1.0 then 0.0 else 1.0 / adj[q]
    {
      if inv[i] == 1.0 {
        inv := inv[i := 0.0];
      }
    }
    ret := seq(n, i requires 0 <= i < n => (adj[i] - ColSum(T, i)) / adj[i]);
  }

  // ---------------------------------------------------------------------------
  // Properties of the Kastner model

  lemma FractionBounds(part: real, whole: real)
    requires 0.0 <= part <= whole && whole > 0.0
    ensures 0.0 <= part / whole <= 1.0
  {
    var q := part / whole;
    assert q * whole == part;
  }

  /** With non-negative trade and production, every retention share is in [0, 1]. */
  lemma RetentionBounds(T: Matrix, P: Matrix, n: nat)
    requires Inputs(T, P, n) && NonNegative(T) && NonNegative(P)
    ensures forall i :: 0 <= i < n ==> 0.0 <= Retention(T, P, n)[i] <= 1.0
  {
    var adj := AdjustedDmi(T, P, n);
    var safe := SafeDmi(T, P, n);
    forall i | 0 <= i < n ensures 0.0 <= Retention(T, P, n)[i] <= 1.0 {
      ColSumNonNegative(T, i);
      if adj[i] != 0.0 {
        FractionBounds(adj[i] - ColSum(T, i), adj[i]);
      }
    }
  }

  /** Every country's exported shares and retained share add up to its whole
      DMI: column j of A sums to `exports / dmi_adj` and the retention share is
      the rest, so the columns of A sum to at most 1. */
  lemma SharesAndRetention(T: Matrix, P: Matrix, n: nat)
    requires Inputs(T, P, n) && NonNegative(T)
    ensures forall j :: 0 <= j < n ==> ColSum(Shares(T, P, n), j) + Retention(T, P, n)[j] == 1.0
  {
    forall j | 0 <= j < n ensures ColSum(Shares(T, P, n), j) + Retention(T, P, n)[j] == 1.0 {
      ColumnBalance(T, P, n, j);
    }
  }

  lemma ColumnBalance(T: Matrix, P: Matrix, n: nat, j: nat)
    requires Inputs(T, P, n) && NonNegative(T) && j < n
    ensures ColSum(Shares(T, P, n), j) + Retention(T, P, n)[j] == 1.0
  {
    InverseEntry(T, P, n, j);
    ColumnShare(T, P, n, j);
    ColSumNonNegative(T, j);
    ShareSum(ColSum(T, j), AdjustedDmi(T, P, n)[j], InverseDmi(T, P, n)[j], SafeDmi(T, P, n)[j],
             ColSum(Shares(T, P, n), j), Retention(T, P, n)[j]);
  }

  /** The inverse and the safe divisor of one country. */
  lemma InverseEntry(T: Matrix, P: Matrix, n: nat, j: nat)
    requires Inputs(T, P, n) && j < n
    ensures var adj := AdjustedDmi(T, P, n)[j];
      adj != 0.0 ==> InverseDmi(T, P, n)[j] * adj == 1.0 && SafeDmi(T, P, n)[j] == adj
    ensures AdjustedDmi(T, P, n)[j] == 0.0 ==> InverseDmi(T, P, n)[j] == 0.0 && SafeDmi(T, P, n)[j] == 1.0
  {
  }

  /** Column j of the shares sums to j's exports times its inverse. */
  lemma ColumnShare(T: Matrix, P: Matrix, n: nat, j: nat)
    requires Inputs(T, P, n) && j < n
    ensures ColSum(Shares(T, P, n), j) == InverseDmi(T, P, n)[j] * ColSum(T, j)
  {
    ColumnOfShares(T, InverseDmi(T, P, n), n, j);
  }

  /** Column j of any export share matrix sums to j's exports times its inverse. */
  lemma ColumnOfShares(T: Matrix, inv: Vector, n: nat, j: nat)
    requires IsSquare(T, n) && |inv| == n && j < n
    ensures ColSum(ExportShares(T, inv, n), j) == inv[j] * ColSum(T, j)
  {
    var c := inv[j];
    var t := Column(ExportShares(T, inv, n), j);
    forall k | 0 <= k < n ensures t[k] == c * Column(T, j)[k] {
      assert t[k] == T[k][j] * c;
    }
    SumScale(Column(T, j), t, c);
  }

  /** No country exports more than its whole DMI: each column of the export
      shares sums to a value in [0, 1], with the inverse as written and as
      intended alike. */
  lemma ColumnSharesAtMostOne(T: Matrix, P: Matrix, n: nat, j: nat)
    requires Inputs(T, P, n) && NonNegative(T) && j < n
    ensures 0.0 <= ColSum(SharesAsWritten(T, P, n), j) <= 1.0
    ensures 0.0 <= ColSum(Shares(T, P, n), j) <= 1.0
  {
    var exports := ColSum(T, j);
    var adj := AdjustedDmi(T, P, n)[j];
    ColSumNonNegative(T, j);
    ColumnOfShares(T, InverseDmiAsWritten(T, P, n), n, j);
    ColumnOfShares(T, InverseDmi(T, P, n), n, j);
    InverseEntry(T, P, n, j);
    if adj != 0.0 {
      FractionBounds(exports, adj);
      assert (1.0 / adj) * exports == exports / adj;
    }
  }

  /** The arithmetic of one column: exports times the inverse plus the
      retained fraction is 1, the zero-DMI case included. */
  lemma ShareSum(exports: real, adj: real, inv: real, safe: real, share: real, ret: real)
    requires 0.0 <= exports <= adj
    requires adj != 0.0 ==> inv * adj == 1.0 && safe == adj
    requires adj == 0.0 ==> inv == 0.0 && safe == 1.0
    requires share == inv * exports && ret == (safe - exports) / safe
    ensures share + ret == 1.0
  {
    if adj != 0.0 {
      assert inv == 1.0 / adj;
    }
  }

  /** The Kastner model conserves mass: whatever D solves `(I − A) · D = P`,
      the consumption attributed to each origin j adds up to j's production. */
  lemma KastnerMassBalance(T: Matrix, P: Matrix, D: Matrix, n: nat)
    requires Inputs(T, P, n) && NonNegative(T)
    requires SolvesLeontief(Shares(T, P, n), D, P, n)
    ensures forall j :: 0 <= j < n ==> ColSum(Consumption(Retention(T, P, n), D, n), j) == ColSum(P, j)
    ensures Total(Consumption(Retention(T, P, n), D, n)) == Total(P)
  {
    var R := Consumption(Retention(T, P, n), D, n);
    forall j | 0 <= j < n ensures ColSum(R, j) == ColSum(P, j) {
      OriginBalance(T, P, D, n, j);
    }
    TotalByColumns(R, n, n);
    TotalByColumns(P, n, n);
    assert ColSums(R, n) == ColSums(P, n);
  }

  lemma OriginBalance(T: Matrix, P: Matrix, D: Matrix, n: nat, j: nat)
    requires Inputs(T, P, n) && NonNegative(T) && j < n
    requires SolvesLeontief(Shares(T, P, n), D, P, n)
    ensures ColSum(Consumption(Retention(T, P, n), D, n), j) == ColSum(P, j)
  {
    SharesAndRetention(T, P, n);
    BalanceFromShares(Shares(T, P, n), Retention(T, P, n), D, P, n, j);
  }

  /** Whenever the exported and retained shares of every country add up to 1,
      the retained part of a solution D has the column sums of P. */
  lemma BalanceFromShares(A: Matrix, ret: Vector, D: Matrix, P: Matrix, n: nat, j: nat)
    requires IsSquare(A, n) && SolvesLeontief(A, D, P, n) && |ret| == n && j < n
    requires forall k :: 0 <= k < n ==> ColSum(A, k) + ret[k] == 1.0
    ensures ColSum(Consumption(ret, D, n), j) == ColSum(P, j)
  {
    SolutionColumn(A, D, P, n, j);
    RetainedColumn(A, ret, D, n, j);
  }

  /** What the countries keep of origin j is what they hold of it less what they pass on. */
  lemma RetainedColumn(A: Matrix, ret: Vector, D: Matrix, n: nat, j: nat)
    requires IsSquare(A, n) && IsSquare(D, n) && |ret| == n && j < n
    requires forall k :: 0 <= k < n ==> ColSum(A, k) + ret[k] == 1.0
    ensures ColSum(Consumption(ret, D, n), j) == ColSum(D, j) - Sum(ColumnWeights(A, D, n, j))
  {
    var R := Consumption(ret, D, n);
    var exported := ColumnWeights(A, D, n, j);
    forall k | 0 <= k < n ensures Column(D, j)[k] == exported[k] + Column(R, j)[k] {
      assert exported[k] == ColSum(A, k) * D[k][j];
      assert Column(R, j)[k] == ret[k] * D[k][j];
      SplitByShares(ColSum(A, k), ret[k], D[k][j]);
    }
    SumAdd(exported, Column(R, j), Column(D, j));
  }

  lemma SplitByShares(exported: real, retained: real, d: real)
    requires exported + retained == 1.0
    ensures d == exported * d + retained * d
  {
    assert exported * d + retained * d == (exported + retained) * d;
  }

  /** Summed over a column: the production of origin j is what D holds of j,
      less what the countries export of it, weighted by their export shares. */
  lemma SolutionColumn(A: Matrix, D: Matrix, P: Matrix, n: nat, j: nat)
    requires IsSquare(A, n) && SolvesLeontief(A, D, P, n) && j < n
    ensures IsSquare(P, n)
    ensures ColSum(P, j) == ColSum(D, j) - Sum(ColumnWeights(A, D, n, j))
  {
    SolutionColumnSplit(A, D, P, n, j);
    SumAdd(Column(P, j), Column(MatMul(A, D, n, n, n), j), Column(D, j));
    ColSumOfProduct(A, D, n, n, n, j);
  }

  /** Column j of D is column j of P plus column j of A·D. */
  lemma SolutionColumnSplit(A: Matrix, D: Matrix, P: Matrix, n: nat, j: nat)
    requires IsSquare(A, n) && SolvesLeontief(A, D, P, n) && j < n
    ensures forall k :: 0 <= k < n ==> Column(D, j)[k] == Column(P, j)[k] + Column(MatMul(A, D, n, n, n), j)[k]
  {
    forall k | 0 <= k < n ensures Column(D, j)[k] == Column(P, j)[k] + Column(MatMul(A, D, n, n, n), j)[k] {
      LeontiefEntry(A, D, P, n, k, j);
    }
  }

  /** With non-negative trade and a non-negative D, consumption by origin is
      non-negative and never exceeds the DMI it is taken from. */
  lemma ConsumptionWithinDmi(T: Matrix, P: Matrix, D: Matrix, n: nat)
    requires Inputs(T, P, n) && NonNegative(T) && NonNegative(P) && IsSquare(D, n) && NonNegative(D)
    ensures forall i, j :: 0 <= i < n && 0 <= j < n ==>
      0.0 <= Consumption(Retention(T, P, n), D, n)[i][j] <= D[i][j]
  {
    RetentionBounds(T, P, n);
    var ret := Retention(T, P, n);
    var R := Consumption(ret, D, n);
    forall i, j | 0 <= i < n && 0 <= j < n ensures 0.0 <= R[i][j] <= D[i][j] {
      ScaledWithin(ret[i], D[i][j], R[i][j]);
    }
  }

  lemma ScaledWithin(r: real, d: real, x: real)
    requires 0.0 <= r <= 1.0 && d >= 0.0 && x == r * d
    ensures 0.0 <= x <= d
  {
    assert d - x == (1.0 - r) * d;
  }

  /** A country that neither produces nor imports consumes nothing, from any origin. */
  lemma IsolatedCountryConsumesNothing(T: Matrix, P: Matrix, D: Matrix, n: nat, i: nat)
    requires Inputs(T, P, n) && i < n
    requires SolvesLeontief(Shares(T, P, n), D, P, n)
    requires forall k :: 0 <= k < n ==> P[i][k] == 0.0 && T[i][k] == 0.0
    ensures forall j :: 0 <= j < n ==> Consumption(Retention(T, P, n), D, n)[i][j] == 0.0
  {
    ZeroRowOfSolution(Shares(T, P, n), D, P, n, i);
  }

  /** A country with no production and no exported share reaching it holds nothing of any origin. */
  lemma ZeroRowOfSolution(A: Matrix, D: Matrix, P: Matrix, n: nat, i: nat)
    requires IsSquare(A, n) && SolvesLeontief(A, D, P, n) && i < n
    requires forall k :: 0 <= k < n ==> P[i][k] == 0.0 && A[i][k] == 0.0
    ensures forall j :: 0 <= j < n ==> D[i][j] == 0.0
  {
    forall j | 0 <= j < n ensures D[i][j] == 0.0 {
      assert P[i][j] == 0.0;
      ZeroRowTerms(A, D, n, i, j);
    }
  }

  lemma ZeroRowTerms(A: Matrix, D: Matrix, n: nat, i: nat, j: nat)
    requires IsSquare(A, n) && IsSquare(D, n) && i < n && j < n
    requires forall k :: 0 <= k < n ==> A[i][k] == 0.0
    ensures Sum(ProductTerms(A, D, i, j, n)) == 0.0
  {
    var t := ProductTerms(A, D, i, j, n);
    forall k | 0 <= k < n ensures t[k] == 0.0 {
      assert t[k] == A[i][k] * D[k][j];
    }
    SumZero(t);
  }

  /** Country 0 produces 100 and exports 30 to country 1, which re-exports 10
      to country 2. Country 2's consumption is traced back to country 0, and
      country 0 keeps 70. */
  lemma ReExportTracedToOrigin(D: Matrix)
    requires SolvesLeontief(Shares(ChainTrade(), ChainProduction(), 3), D, ChainProduction(), 3)
    ensures var R := Consumption(Retention(ChainTrade(), ChainProduction(), 3), D, 3);
      R[0][0] == 70.0 && R[1][0] == 20.0 && R[2][0] == 10.0
  {
    ChainVectors();
    ChainShares();
    ChainSolution(Shares(ChainTrade(), ChainProduction(), 3), D, ChainProduction());
  }

  /** The entry (i, j) of the system `D − A·D = P`. */
  lemma LeontiefEntry(A: Matrix, D: Matrix, P: Matrix, n: nat, i: nat, j: nat)
    requires IsSquare(A, n) && SolvesLeontief(A, D, P, n) && i < n && j < n
    ensures D[i][j] - Sum(ProductTerms(A, D, i, j, n)) == P[i][j]
  {
    var t := ProductTerms(A, D, i, j, n);
  }

  lemma ChainSolution(A: Matrix, D: Matrix, P: Matrix)
    requires A == [[0.0, 0.0, 0.0], [0.3, 0.0, 0.0], [0.0, 1.0 / 3.0, 0.0]]
    requires P == ChainProduction()
    requires SolvesLeontief(A, D, P, 3)
    ensures D[0][0] == 100.0 && D[1][0] == 30.0 && D[2][0] == 10.0
  {
    LeontiefEntry(A, D, P, 3, 0, 0);
    LeontiefEntry(A, D, P, 3, 1, 0);
    LeontiefEntry(A, D, P, 3, 2, 0);
    Sum3(ProductTerms(A, D, 0, 0, 3));
    Sum3(ProductTerms(A, D, 1, 0, 3));
    Sum3(ProductTerms(A, D, 2, 0, 3));
  }

  lemma ChainShares()
    ensures Shares(ChainTrade(), ChainProduction(), 3) == [[0.0, 0.0, 0.0], [0.3, 0.0, 0.0], [0.0, 1.0 / 3.0, 0.0]]
  {
    ChainVectors();
    var T := ChainTrade();
    var inv := InverseDmi(T, ChainProduction(), 3);
    var A := ExportShares(T, inv, 3);
    assert inv[0] == 1.0 / 100.0 && inv[1] == 1.0 / 30.0 && inv[2] == 1.0 / 10.0;
    assert T[0] == [0.0, 0.0, 0.0] && T[1] == [30.0, 0.0, 0.0] && T[2] == [0.0, 10.0, 0.0];
    assert A[0] == [0.0, 0.0, 0.0];
    assert A[1][0] == 30.0 * (1.0 / 100.0);
    assert A[1] == [0.3, 0.0, 0.0];
    assert A[2][1] == 10.0 * (1.0 / 30.0);
    assert A[2] == [0.0, 1.0 / 3.0, 0.0];
  }

  function ChainTrade(): (T: Matrix)
    ensures IsSquare(T, 3)
  {
    [[0.0, 0.0, 0.0], [30.0, 0.0, 0.0], [0.0, 10.0, 0.0]]
  }

  function ChainProduction(): (P: Matrix)
    ensures IsSquare(P, 3)
  {
    [[100.0, 0.0, 0.0], [0.0, 0.0, 0.0], [0.0, 0.0, 0.0]]
  }

  lemma ChainVectors()
    ensures Dmi(ChainTrade(), ChainProduction(), 3) == [100.0, 30.0, 10.0]
    ensures forall j :: 0 <= j < 3 ==> ColSum(ChainTrade(), j) == [30.0, 10.0, 0.0][j]
    ensures AdjustedDmi(ChainTrade(), ChainProduction(), 3) == [100.0, 30.0, 10.0]
    ensures SafeDmi(ChainTrade(), ChainProduction(), 3) == [100.0, 30.0, 10.0]
    ensures InverseDmi(ChainTrade(), ChainProduction(), 3) == [1.0 / 100.0, 1.0 / 30.0, 1.0 / 10.0]
    ensures Retention(ChainTrade(), ChainProduction(), 3) == [0.7, 20.0 / 30.0, 1.0]
  {
    var T := ChainTrade();
    var P := ChainProduction();
    Sum3(T[0]); Sum3(T[1]); Sum3(T[2]);
    Sum3(P[0]); Sum3(P[1]); Sum3(P[2]);
    Sum3(Column(T, 0)); Sum3(Column(T, 1)); Sum3(Column(T, 2));
    assert Dmi(T, P, 3) == [100.0, 30.0, 10.0];
    assert AdjustedDmi(T, P, 3) == [100.0, 30.0, 10.0];
  }

  // ---------------------------------------------------------------------------
  // The discrepancy of the inverse as written

  /** Country 0 produces 1 and exports 0.4 to country 1: its adjusted DMI is
      exactly 1. As written, its export shares are dropped, so D = P and the
      0.4 consumed by country 1 is attributed to nobody: the consumption by
      origin 0 sums to 0.6 while 1 was produced. The intended inverse keeps
      the share, and the consumption adds up to the production. */
  lemma UnitDmiLosesExports(D: Matrix, E: Matrix)
    requires SolvesLeontief(SharesAsWritten(UnitTrade(), UnitProduction(), 2), D, UnitProduction(), 2)
    requires SolvesLeontief(Shares(UnitTrade(), UnitProduction(), 2), E, UnitProduction(), 2)
    ensures ColSum(Consumption(Retention(UnitTrade(), UnitProduction(), 2), D, 2), 0) == 0.6
    ensures ColSum(Consumption(Retention(UnitTrade(), UnitProduction(), 2), E, 2), 0) == 1.0
    ensures ColSum(UnitProduction(), 0) == 1.0
  {
    var T := UnitTrade();
    var P := UnitProduction();
    UnitVectors();
    var A := SharesAsWritten(T, P, 2);
    UnitSolution(A, D, P);
    var R := Consumption(Retention(T, P, 2), D, 2);
    assert R[0][0] == 0.6 * 1.0 && R[1][0] == 1.0 * 0.0;
    Sum2(Column(R, 0));
    KastnerMassBalance(T, P, E, 2);
  }

  lemma UnitVectors()
    ensures ColSum(UnitProduction(), 0) == 1.0
    ensures SharesAsWritten(UnitTrade(), UnitProduction(), 2) == [[0.0, 0.0], [0.0, 0.0]]
    ensures Retention(UnitTrade(), UnitProduction(), 2) == [0.6, 1.0]
  {
    var T := UnitTrade();
    var P := UnitProduction();
    Sum2(T[0]); Sum2(T[1]); Sum2(P[0]); Sum2(P[1]);
    Sum2(Column(T, 0)); Sum2(Column(T, 1)); Sum2(Column(P, 0));
    assert Dmi(T, P, 2) == [1.0, 0.4];
    assert AdjustedDmi(T, P, 2) == [1.0, 0.4];
    assert SafeDmi(T, P, 2) == [1.0, 0.4];
    assert InverseDmiAsWritten(T, P, 2)[0] == 0.0;
    var A := SharesAsWritten(T, P, 2);
    assert A[0] == [0.0, 0.0];
    assert A[1] == [0.0, 0.0];
  }

  /** With no export shares at all, D is the production itself. */
  lemma UnitSolution(A: Matrix, D: Matrix, P: Matrix)
    requires A == [[0.0, 0.0], [0.0, 0.0]] && P == UnitProduction()
    requires SolvesLeontief(A, D, P, 2)
    ensures D[0][0] == 1.0 && D[1][0] == 0.0
  {
    LeontiefEntry(A, D, P, 2, 0, 0);
    LeontiefEntry(A, D, P, 2, 1, 0);
    Sum2(ProductTerms(A, D, 0, 0, 2));
    Sum2(ProductTerms(A, D, 1, 0, 2));
  }

  function UnitTrade(): (T: Matrix)
    ensures IsSquare(T, 2)
  {
    [[0.0, 0.0], [0.4, 0.0]]
  }

  function UnitProduction(): (P: Matrix)
    ensures IsSquare(P, 2)
  {
    [[1.0, 0.0], [0.0, 0.0]]
  }

  // ---------------------------------------------------------------------------
  // The direct model

  /** `mat_prod[mat_prod != 0] = 1`: 1 where there is production, 0 elsewhere. */
  function ProductionMask(P: Matrix, n: nat): (M: Matrix)
    requires IsSquare(P, n)
    ensures IsSquare(M, n)
  {
    seq(n, i requires 0 <= i < n => seq(n, j requires 0 <= j < n => if P[i][j] != 0.0 then 1.0 else 0.0))
  }

  /** `(P + T) · mask`. */
  function DirectConsumption(T: Matrix, P: Matrix, n: nat): (R: Matrix)
    requires Inputs(T, P, n)
    ensures IsSquare(R, n)
  {
    MatMul(Add(P, T, n, n), ProductionMask(P, n), n, n, n)
  }

  /** With a diagonal production matrix, the direct model keeps production plus
      direct imports in the columns of the producing countries and zeroes the
      columns of the others. */
  lemma DirectConsumptionColumns(T: Matrix, P: Matrix, n: nat)
    requires Inputs(T, P, n) && IsDiagonal(P)
    ensures forall i, j :: 0 <= i < n && 0 <= j < n ==>
      DirectConsumption(T, P, n)[i][j] == if P[j][j] != 0.0 then P[i][j] + T[i][j] else 0.0
  {
    forall i, j | 0 <= i < n && 0 <= j < n
      ensures DirectConsumption(T, P, n)[i][j] == if P[j][j] != 0.0 then P[i][j] + T[i][j] else 0.0
    {
      DirectEntry(T, P, n, i, j);
    }
  }

  lemma DirectEntry(T: Matrix, P: Matrix, n: nat, i: nat, j: nat)
    requires Inputs(T, P, n) && IsDiagonal(P) && i < n && j < n
    ensures DirectConsumption(T, P, n)[i][j] == if P[j][j] != 0.0 then P[i][j] + T[i][j] else 0.0
  {
    SumSingle(ProductTerms(Add(P, T, n, n), ProductionMask(P, n), i, j, n), j);
  }

  /** So each producing country's column of the direct model holds its own
      production and its partners' direct imports from it, and nothing else. */
  lemma DirectConsumptionTotals(T: Matrix, P: Matrix, n: nat)
    requires Inputs(T, P, n) && IsDiagonal(P)
    ensures forall j :: 0 <= j < n ==>
      ColSum(DirectConsumption(T, P, n), j) == if P[j][j] != 0.0 then P[j][j] + ColSum(T, j) else 0.0
  {
    forall j | 0 <= j < n
      ensures ColSum(DirectConsumption(T, P, n), j) == if P[j][j] != 0.0 then P[j][j] + ColSum(T, j) else 0.0
    {
      DirectColumn(T, P, n, j);
    }
  }

  lemma DirectColumn(T: Matrix, P: Matrix, n: nat, j: nat)
    requires Inputs(T, P, n) && IsDiagonal(P) && j < n
    ensures ColSum(DirectConsumption(T, P, n), j) == if P[j][j] != 0.0 then P[j][j] + ColSum(T, j) else 0.0
  {
    var R := DirectConsumption(T, P, n);
    forall i | 0 <= i < n ensures R[i][j] == if P[j][j] != 0.0 then P[i][j] + T[i][j] else 0.0 {
      DirectEntry(T, P, n, i, j);
    }
    DirectColumnTotal(T, P, R, n, j);
  }

  lemma DirectColumnTotal(T: Matrix, P: Matrix, R: Matrix, n: nat, j: nat)
    requires Inputs(T, P, n) && IsDiagonal(P) && IsSquare(R, n) && j < n
    requires forall i :: 0 <= i < n ==> R[i][j] == if P[j][j] != 0.0 then P[i][j] + T[i][j] else 0.0
    ensures ColSum(R, j) == if P[j][j] != 0.0 then P[j][j] + ColSum(T, j) else 0.0
  {
    if P[j][j] != 0.0 {
      SumSingle(Column(P, j), j);
      SumAdd(Column(P, j), Column(T, j), Column(R, j));
    } else {
      SumZero(Column(R, j));
    }
  }
}
