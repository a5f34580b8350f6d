/** Embodied consumption along the aluminium chain (`calculate_emb_cons`):
    bauxite is refined into alumina, alumina smelted into aluminium. The
    consumption of `consumed` embodies the production of `produced` further up
    the chain: the embodied matrix of the next mineral down, scaled by the
    input intensity of `produced`, multiplied by the row-normalised Kastner
    consumption matrix of `produced`. Rows are consuming countries, columns
    producing countries. */
module EmbodiedChain {
  import opened Common
  import opened Matrices
  import opened Aggregation

  datatype Mineral = Aluminium | Alumina | Bauxite

  /** Position in the chain, counted from its downstream end. */
  function Stage(m: Mineral): nat
  {
    match m
    case Aluminium => 0
    case Alumina => 1
    case Bauxite => 2
  }

  /** `mineral_list`: the mineral each one is processed into; aluminium has
      no entry, and looking it up raises KeyError. */
  function Downstream(m: Mineral): (r: Result<Mineral>)
    ensures r.Success? <==> m != Aluminium
    ensures r.Success? ==> Stage(r.value) + 1 == Stage(m)
    ensures r.Failure? ==> r.error == KeyError
  {
    match m
    case Aluminium => Failure(KeyError)
    case Alumina => Success(Aluminium)
    case Bauxite => Success(Alumina)
  }

  /** `input_list`: tonnes of the mineral needed per tonne of the next one. */
  function Intensity(m: Mineral): real
  {
    match m
    case Aluminium => 1.0
    case Alumina => 1.93538
    case Bauxite => 2.8764
  }

  /** The Kastner consumption matrix of each mineral for the year. */
  datatype Consumption = Consumption(aluminium: Matrix, alumina: Matrix, bauxite: Matrix)

  function Of(t: Consumption, m: Mineral): Matrix
  {
    match m
    case Aluminium => t.aluminium
    case Alumina => t.alumina
    case Bauxite => t.bauxite
  }

  predicate Tables(t: Consumption, n: nat)
  {
    IsSquare(t.aluminium, n) && IsSquare(t.alumina, n) && IsSquare(t.bauxite, n)
  }

  /** calculate_emb_cons: the consumption matrix itself when both minerals are
      equal, otherwise the recursion one step down the chain. Asking for an
      upstream mineral embodied in a downstream one's production fails when
      the recursion reaches aluminium. */
  function Embodied(produced: Mineral, consumed: Mineral, t: Consumption, n: nat): (r: Result<Matrix>)
    requires Tables(t, n)
    ensures r.Success? <==> Stage(consumed) <= Stage(produced)
    ensures r.Failure? ==> r.error == KeyError
    ensures r.Success? ==> IsSquare(r.value, n)
    ensures produced == consumed ==> r == Success(Of(t, consumed))
    decreases Stage(produced)
  {
    if produced == consumed then Success(Of(t, produced))
    else
      match Downstream(produced)
      case Failure(e) => Failure(e)
      case Success(next) =>
        match Embodied(next, consumed, t, n)
        case Failure(e) => Failure(e)
        case Success(below) => Success(Refine(produced, below, t, n))
  }

  /** One step down the chain, `temp_emb_cons * conversion_factor * temp_mat_cons_rel`:
      the embodied matrix below, scaled by the intensity of `produced`, times
      the row-normalised consumption matrix of `produced`. */
  function Refine(produced: Mineral, below: Matrix, t: Consumption, n: nat): (r: Matrix)
    requires Tables(t, n) && IsSquare(below, n)
    ensures IsSquare(r, n)
  {
    MatMul(Scale(Intensity(produced), below, n, n), RelativeMatrix(Of(t, produced), n, n, PerRow), n, n, n)
  }

  /** The product of the intensities from `produced` down to `consumed`
      (excluded): tonnes of `produced` per tonne of `consumed`. */
  function ChainIntensity(produced: Mineral, consumed: Mineral): real
    decreases Stage(produced)
  {
    if produced == consumed || produced == Aluminium then 1.0
    else Intensity(produced) * ChainIntensity(Downstream(produced).value, consumed)
  }

  /** Every country consumes some of each mineral strictly above `consumed`
      and up to `produced`, so that the normalised rows sum to 1. */
  predicate ConsumesAlongChain(t: Consumption, n: nat, produced: Mineral, consumed: Mineral)
    requires Tables(t, n)
  {
    forall m: Mineral, i :: Stage(consumed) < Stage(m) <= Stage(produced) && 0 <= i < n ==> RowSum(Of(t, m), i) != 0.0
  }

  /** `c · v`. */
  function Scaled(c: real, v: Vector): (r: Vector)
    ensures |r| == |v| && forall k :: 0 <= k < |v| ==> r[k] == c * v[k]
  {
    seq(|v|, k requires 0 <= k < |v| => c * v[k])
  }

  lemma ScaledTwice(f: real, g: real, v: Vector)
    ensures Scaled(f, Scaled(g, v)) == Scaled(f * g, v)
  {
    var a := Scaled(f, Scaled(g, v));
    forall k | 0 <= k < |v| ensures a[k] == (f * g) * v[k] {
      assert a[k] == f * (g * v[k]);
    }
  }

  /** Mass along the chain: each country's embodied consumption of
      `produced` adds up to its consumption of `consumed` times the chain's
      intensity. */
  lemma {:induction false} EmbodiedRowTotals(produced: Mineral, consumed: Mineral, t: Consumption, n: nat)
    requires Tables(t, n) && Stage(consumed) <= Stage(produced)
    requires ConsumesAlongChain(t, n, produced, consumed)
    ensures RowSums(Embodied(produced, consumed, t, n).value) == Scaled(ChainIntensity(produced, consumed), RowSums(Of(t, consumed)))
    decreases Stage(produced)
  {
    if produced == consumed {
      var v := RowSums(Of(t, consumed));
      assert Scaled(1.0, v) == v;
    } else {
      var next := Downstream(produced).value;
      var v := RowSums(Of(t, consumed));
      var f, g := Intensity(produced), ChainIntensity(next, consumed);
      assert ChainIntensity(produced, consumed) == f * g;
      EmbodiedStep(produced, consumed, t, n);
      EmbodiedRowTotals(next, consumed, t, n);
      ScaledTwice(f, g, v);
    }
  }

  /** One step down the chain scales every row sum by the intensity. */
  lemma EmbodiedStep(produced: Mineral, consumed: Mineral, t: Consumption, n: nat)
    requires Tables(t, n) && Stage(consumed) < Stage(produced)
    requires ConsumesAlongChain(t, n, produced, consumed)
    ensures RowSums(Embodied(produced, consumed, t, n).value)
         == Scaled(Intensity(produced), RowSums(Embodied(Downstream(produced).value, consumed, t, n).value))
  {
    var below := Embodied(Downstream(produced).value, consumed, t, n).value;
    assert Embodied(produced, consumed, t, n).value == Refine(produced, below, t, n);
    NormalisedRows(t, n, produced, consumed);
    RefineRowSums(produced, below, t, n);
  }

  lemma RefineRowSums(produced: Mineral, e: Matrix, t: Consumption, n: nat)
    requires Tables(t, n) && IsSquare(e, n)
    requires forall k :: 0 <= k < n ==> RowSum(RelativeMatrix(Of(t, produced), n, n, PerRow), k) == 1.0
    ensures RowSums(Refine(produced, e, t, n)) == Scaled(Intensity(produced), RowSums(e))
  {
    var rel := RelativeMatrix(Of(t, produced), n, n, PerRow);
    var r := Refine(produced, e, t, n);
    assert r == MatMul(Scale(Intensity(produced), e, n, n), rel, n, n, n);
    var s := Scaled(Intensity(produced), RowSums(e));
    forall i | 0 <= i < n ensures RowSums(r)[i] == s[i] {
      ScaledProductRowSum(e, rel, Intensity(produced), n, i);
      assert RowSum(r, i) == Intensity(produced) * RowSum(e, i);
    }
  }

  lemma NormalisedRows(t: Consumption, n: nat, produced: Mineral, consumed: Mineral)
    requires Tables(t, n) && Stage(consumed) < Stage(produced)
    requires ConsumesAlongChain(t, n, produced, consumed)
    ensures forall k :: 0 <= k < n ==> RowSum(RelativeMatrix(Of(t, produced), n, n, PerRow), k) == 1.0
  {
    forall k | 0 <= k < n ensures RowSum(RelativeMatrix(Of(t, produced), n, n, PerRow), k) == 1.0 {
      assert RowSum(Of(t, produced), k) != 0.0;
      RowsSumToOne(Of(t, produced), n, n, k);
    }
  }

  /** Scaling by f, then multiplying by a matrix whose rows sum to 1,
      multiplies every row sum by f. */
  lemma ScaledProductRowSum(e: Matrix, rel: Matrix, f: real, n: nat, i: nat)
    requires IsSquare(e, n) && IsSquare(rel, n) && i < n
    requires forall k :: 0 <= k < n ==> RowSum(rel, k) == 1.0
    ensures RowSum(MatMul(Scale(f, e, n, n), rel, n, n, n), i) == f * RowSum(e, i)
  {
    var x := Scale(f, e, n, n);
    RowSumOfProduct(x, rel, n, n, n, i);
    UnitWeights(x, rel, n, i);
    SumScale(e[i], x[i], f);
  }

  /** Weighting by rows that sum to 1 leaves row i as it is. */
  lemma UnitWeights(x: Matrix, rel: Matrix, n: nat, i: nat)
    requires IsSquare(x, n) && IsSquare(rel, n) && i < n
    requires forall k :: 0 <= k < n ==> RowSum(rel, k) == 1.0
    ensures RowWeightedSums(x, rel, n, i) == x[i]
  {
    var w := RowWeightedSums(x, rel, n, i);
    forall k | 0 <= k < n ensures w[k] == x[i][k] {
      assert w[k] == x[i][k] * RowSum(rel, k);
    }
  }

  /** Chain intensities compose: the tonnes of `a` per tonne of `c` are the
      tonnes of `a` per tonne of `b` times the tonnes of `b` per tonne of `c`,
      for any `b` between them; and no step creates mass, each needing at
      least one tonne upstream per tonne downstream. */
  lemma {:induction false} ChainIntensityComposes(a: Mineral, b: Mineral, c: Mineral)
    requires Stage(c) <= Stage(b) <= Stage(a)
    ensures ChainIntensity(a, c) == ChainIntensity(a, b) * ChainIntensity(b, c)
    ensures ChainIntensity(a, c) >= 1.0
    decreases Stage(a)
  {
    if a != c {
      var next := Downstream(a).value;
      if a == b {
        ChainIntensityComposes(next, next, c);
      } else {
        ChainIntensityComposes(next, b, c);
      }
    }
  }

  /** Worked example with input_list's constants: one tonne of aluminium
      embodies 1.93538 t of alumina, hence 1.93538 × 2.8764 t of bauxite. */
  lemma BauxitePerAluminium()
    ensures ChainIntensity(Alumina, Aluminium) == 1.93538
    ensures ChainIntensity(Bauxite, Aluminium) == 2.8764 * 1.93538
    ensures ChainIntensity(Bauxite, Alumina) == 2.8764
  {
  }
}
