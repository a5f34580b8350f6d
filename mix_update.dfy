/** The updates of exchange amounts in the background database
    (`utils_update.py`). The producing exchanges of a "market for consumption"
    get one-hot amounts (localise, globalise, a market without local
    consumption), consumption mixes read off the Kastner consumption matrix,
    or the diagonal of the production matrix; the energy inputs of alumina
    and liquid aluminium production are converted from the IAI tables; and
    the producer and spatial indices of a country are chosen among the rows
    of the country correspondence. */
module MixUpdate {
  import opened Common
  import opened Matrices

  // ---------------------------------------------------------------------------
  // Positions and sums over positions

  /** `np.where(np.array(s) == x)[0]`: the positions holding `x`, ascending. */
  function Positions<T(==)>(s: seq<T>, x: T): (r: seq<nat>)
    ensures forall j :: 0 <= j < |r| ==> r[j] < |s| && s[r[j]] == x
  {
    if |s| == 0 then []
    else Positions(s[..|s| - 1], x) + (if s[|s| - 1] == x then [|s| - 1] else [])
  }

  /** The positions found are all of them, in ascending order. */
  lemma {:induction false} PositionsComplete<T>(s: seq<T>, x: T)
    ensures forall p :: 0 <= p < |s| && s[p] == x ==> p in Positions(s, x)
    ensures forall i, j :: 0 <= i < j < |Positions(s, x)| ==> Positions(s, x)[i] < Positions(s, x)[j]
  {
    if |s| > 0 {
      var n := |s|;
      var prev := Positions(s[..n - 1], x);
      var r := Positions(s, x);
      PositionsComplete(s[..n - 1], x);
      forall p | 0 <= p < n && s[p] == x ensures p in r {
        if p < n - 1 {
          assert s[..n - 1][p] == x;
          var i :| 0 <= i < |prev| && prev[i] == p;
          assert r[i] == p;
        } else {
          assert r[|r| - 1] == p;
        }
      }
      forall i, j | 0 <= i < j < |r| ensures r[i] < r[j] {
        if j < |prev| {
          assert r[i] == prev[i] && r[j] == prev[j];
          assert prev[i] < prev[j];
        } else {
          assert r[i] == prev[i] && r[j] == n - 1;
        }
      }
    }
  }

  /** Every position holding `x` lies between the first and the last found. */
  lemma PositionsEnds<T>(s: seq<T>, x: T)
    requires |Positions(s, x)| > 0
    ensures var r := Positions(s, x);
      forall p :: 0 <= p < |s| && s[p] == x ==> r[0] <= p <= r[|r| - 1]
  {
    var r := Positions(s, x);
    PositionsComplete(s, x);
    forall p | 0 <= p < |s| && s[p] == x ensures r[0] <= p <= r[|r| - 1] {
      var i :| 0 <= i < |r| && r[i] == p;
      if 0 < i {
        assert r[0] < r[i];
      }
      if i < |r| - 1 {
        assert r[i] < r[|r| - 1];
      }
    }
  }

  predicate Bounded(idx: seq<nat>, n: nat)
  {
    forall j :: 0 <= j < |idx| ==> idx[j] < n
  }

  /** `sum(xs[i] for i in idx)`. */
  function SumAt(xs: Vector, idx: seq<nat>): real
    requires Bounded(idx, |xs|)
  {
    if |idx| == 0 then 0.0 else SumAt(xs, idx[..|idx| - 1]) + xs[idx[|idx| - 1]]
  }

  lemma PositionsStep<T>(labels: seq<T>, x: T, m: nat)
    requires 0 < m <= |labels|
    ensures Positions(labels[..m], x)
         == Positions(labels[..m - 1], x) + (if labels[m - 1] == x then [m - 1] else [])
  {
    assert labels[..m][..m - 1] == labels[..m - 1];
  }

  lemma SumAtAppend(xs: Vector, idx: seq<nat>, c: nat)
    requires Bounded(idx, |xs|) && c < |xs|
    ensures SumAt(xs, idx + [c]) == SumAt(xs, idx) + xs[c]
  {
    assert (idx + [c])[..|idx|] == idx;
  }

  lemma GroupSumStep<T>(xs: Vector, labels: seq<T>, x: T, m: nat)
    requires |xs| == |labels| && 0 < m <= |xs|
    ensures GroupSum(xs[..m], labels[..m], x)
         == GroupSum(xs[..m - 1], labels[..m - 1], x) + (if labels[m - 1] == x then xs[m - 1] else 0.0)
  {
    assert labels[..m][..m - 1] == labels[..m - 1];
    assert xs[..m][..m - 1] == xs[..m - 1];
  }

  /** Adding up the entries of a group's positions is the group sum. */
  lemma {:induction false} SumAtPositions<T>(xs: Vector, labels: seq<T>, x: T, m: nat)
    requires |xs| == |labels| && m <= |xs|
    ensures SumAt(xs, Positions(labels[..m], x)) == GroupSum(xs[..m], labels[..m], x)
  {
    if m > 0 {
      var prev := Positions(labels[..m - 1], x);
      SumAtPositions(xs, labels, x, m - 1);
      PositionsStep(labels, x, m);
      GroupSumStep(xs, labels, x, m);
      if labels[m - 1] == x {
        SumAtAppend(xs, prev, m - 1);
      } else {
        assert prev + [] == prev;
      }
    }
  }

  lemma SumAtGroup<T>(xs: Vector, labels: seq<T>, x: T)
    requires |xs| == |labels|
    ensures SumAt(xs, Positions(labels, x)) == GroupSum(xs, labels, x)
  {
    SumAtPositions(xs, labels, x, |xs|);
    assert labels[..|xs|] == labels && xs[..|xs|] == xs;
  }

  lemma {:induction false} SumAtZero(xs: Vector, idx: seq<nat>)
    requires Bounded(idx, |xs|) && forall a :: 0 <= a < |xs| ==> xs[a] == 0.0
    ensures SumAt(xs, idx) == 0.0
  {
    if |idx| > 0 {
      SumAtZero(xs, idx[..|idx| - 1]);
    }
  }

  lemma {:induction false} SumAtScale(v: Vector, w: Vector, c: real, idx: seq<nat>)
    requires |v| == |w| && Bounded(idx, |v|)
    requires forall a :: 0 <= a < |v| ==> w[a] == c * v[a]
    ensures SumAt(w, idx) == c * SumAt(v, idx)
  {
    if |idx| > 0 {
      var k := |idx| - 1;
      SumAtScale(v, w, c, idx[..k]);
      assert c * (SumAt(v, idx[..k]) + v[idx[k]]) == c * SumAt(v, idx[..k]) + c * v[idx[k]];
    }
  }

  lemma {:induction false} SumAtMonotone(v: Vector, w: Vector, idx: seq<nat>)
    requires |v| == |w| && Bounded(idx, |v|)
    requires forall a :: 0 <= a < |v| ==> v[a] <= w[a]
    ensures SumAt(v, idx) <= SumAt(w, idx)
  {
    if |idx| > 0 {
      SumAtMonotone(v, w, idx[..|idx| - 1]);
    }
  }

  lemma {:induction false} SumAtNonNegative(v: Vector, idx: seq<nat>)
    requires Bounded(idx, |v|) && NonNegativeVector(v)
    ensures SumAt(v, idx) >= 0.0
  {
    if |idx| > 0 {
      SumAtNonNegative(v, idx[..|idx| - 1]);
    }
  }

  /** A group none of the labels carries sums to 0. */
  lemma {:induction false} GroupSumAbsent<T>(xs: Vector, labels: seq<T>, g: T)
    requires |xs| == |labels| && g !in labels
    ensures GroupSum(xs, labels, g) == 0.0
  {
    if |xs| > 0 {
      GroupSumAbsent(xs[..|xs| - 1], labels[..|labels| - 1], g);
    }
  }

  // ---------------------------------------------------------------------------
  // Swapping a sum over vectors with a sum over positions

  function Picks(v: seq<Vector>, n: nat, idx: seq<nat>): (r: Vector)
    requires forall k :: 0 <= k < |v| ==> |v[k]| == n
    requires Bounded(idx, n)
    ensures |r| == |v| && forall k :: 0 <= k < |v| ==> r[k] == SumAt(v[k], idx)
  {
    seq(|v|, k requires 0 <= k < |v| => SumAt(v[k], idx))
  }

  function Across(v: seq<Vector>, n: nat, a: nat): (r: Vector)
    requires forall k :: 0 <= k < |v| ==> |v[k]| == n
    requires a < n
    ensures |r| == |v| && forall k :: 0 <= k < |v| ==> r[k] == v[k][a]
  {
    seq(|v|, k requires 0 <= k < |v| => v[k][a])
  }

  function Totals(v: seq<Vector>, n: nat): (r: Vector)
    requires forall k :: 0 <= k < |v| ==> |v[k]| == n
    ensures |r| == n && forall a :: 0 <= a < n ==> r[a] == Sum(Across(v, n, a))
  {
    seq(n, a requires 0 <= a < n => Sum(Across(v, n, a)))
  }

  lemma {:induction false} SumAtSwap(v: seq<Vector>, n: nat, idx: seq<nat>)
    requires forall k :: 0 <= k < |v| ==> |v[k]| == n
    requires Bounded(idx, n)
    ensures Sum(Picks(v, n, idx)) == SumAt(Totals(v, n), idx)
  {
    if |idx| == 0 {
      SumZero(Picks(v, n, idx));
    } else {
      var prev := idx[..|idx| - 1];
      var c := idx[|idx| - 1];
      SumAtSwap(v, n, prev);
      SumAdd(Picks(v, n, prev), Across(v, n, c), Picks(v, n, idx));
    }
  }

  // ---------------------------------------------------------------------------
  // The country correspondence

  /** `country_correspondence`: the English name and the ecoinvent location of
      each registry country, in matrix order; a missing location is None. */
  datatype CountryTable = CountryTable(names: seq<string>, ecoinvent: seq<Option<string>>)

  predicate WellFormed(t: CountryTable)
  {
    |t.names| == |t.ecoinvent|
  }

  /** The matrix indices of the countries of the ecoinvent location `loc`: the
      names of its rows, each found again with `list.index`. */
  function CountryIndices(t: CountryTable, loc: string): (r: seq<nat>)
    requires WellFormed(t)
    ensures Bounded(r, |t.names|)
  {
    var rows := Positions(t.ecoinvent, Some(loc));
    seq(|rows|, j requires 0 <= j < |rows| => IndexOf(t.names, t.names[rows[j]]).value)
  }

  /** With distinct names, `list.index` finds every row at its own position. */
  lemma IndicesAreRows(t: CountryTable, loc: string)
    requires WellFormed(t) && Distinct(t.names)
    ensures CountryIndices(t, loc) == Positions(t.ecoinvent, Some(loc))
  {
    var rows := Positions(t.ecoinvent, Some(loc));
    var r := CountryIndices(t, loc);
    forall j | 0 <= j < |rows| ensures r[j] == rows[j] {
      var i := IndexOf(t.names, t.names[rows[j]]).value;
      assert t.names[i] == t.names[rows[j]];
    }
  }

  /** Summing over the countries of a location adds up its group. */
  lemma LocationSum(xs: Vector, t: CountryTable, loc: string)
    requires WellFormed(t) && Distinct(t.names) && |xs| == |t.names|
    ensures SumAt(xs, CountryIndices(t, loc)) == GroupSum(xs, t.ecoinvent, Some(loc))
  {
    IndicesAreRows(t, loc);
    SumAtGroup(xs, t.ecoinvent, Some(loc));
  }

  // ---------------------------------------------------------------------------
  // Producing exchanges of a market

  /** A producing exchange: the location of its input activity and its amount. */
  datatype Exchange = Exchange(location: string, amount: real)

  function Locations(es: seq<Exchange>): (r: seq<string>)
    ensures |r| == |es| && forall k :: 0 <= k < |es| ==> r[k] == es[k].location
  {
    seq(|es|, k requires 0 <= k < |es| => es[k].location)
  }

  function Amounts(es: seq<Exchange>): (r: Vector)
    ensures |r| == |es| && forall k :: 0 <= k < |es| ==> r[k] == es[k].amount
  {
    seq(|es|, k requires 0 <= k < |es| => es[k].amount)
  }

  function TotalAmount(es: seq<Exchange>): real
  {
    Sum(Amounts(es))
  }

  /** The exchange locations as labels of the country correspondence. */
  function Groups(es: seq<Exchange>): (r: seq<Option<string>>)
    ensures |r| == |es| && forall k :: 0 <= k < |es| ==> r[k] == Some(es[k].location)
    ensures Distinct(Locations(es)) ==> Distinct(r)
  {
    seq(|es|, k requires 0 <= k < |es| => Some(es[k].location))
  }

  /** Amount 1 on the exchanges at `target`, 0 on all others. */
  function OneHot(es: seq<Exchange>, target: string): (r: seq<Exchange>)
    ensures Locations(r) == Locations(es)
  {
    seq(|es|, k requires 0 <= k < |es| => es[k].(amount := if es[k].location == target then 1.0 else 0.0))
  }

  /** `dbUpdate_localize` on one market at `market`: the exchanges must
      include GLO; the local exchange gets 1 when there is one, else GLO. */
  function Localized(market: string, es: seq<Exchange>): (r: Result<seq<Exchange>>)
    ensures r.Failure? <==> "GLO" !in Locations(es)
    ensures r.Failure? ==> r.error == AssertionError
    ensures r.Success? ==> Locations(r.value) == Locations(es)
  {
    if "GLO" !in Locations(es) then Failure(AssertionError)
    else Success(OneHot(es, if market in Locations(es) then market else "GLO"))
  }

  /** `dbUpdate_globalize` on one market: GLO gets 1. */
  function Globalized(es: seq<Exchange>): (r: Result<seq<Exchange>>)
    ensures r.Failure? <==> "GLO" !in Locations(es)
    ensures r.Failure? ==> r.error == AssertionError
    ensures r.Success? ==> Locations(r.value) == Locations(es)
  {
    if "GLO" !in Locations(es) then Failure(AssertionError)
    else Success(OneHot(es, "GLO"))
  }

  lemma OneHotTotal(es: seq<Exchange>, target: string)
    requires Distinct(Locations(es))
    ensures TotalAmount(OneHot(es, target)) == if target in Locations(es) then 1.0 else 0.0
  {
    IndicatorSum(Locations(es), target, 1.0, Amounts(OneHot(es, target)));
  }

  /** Among distinct locations, localising puts the whole market on one
      exchange: the market's own location when present, else GLO. */
  lemma LocalizedMix(market: string, es: seq<Exchange>)
    requires Distinct(Locations(es)) && "GLO" in Locations(es)
    ensures TotalAmount(Localized(market, es).value) == 1.0
    ensures forall k :: 0 <= k < |es| ==>
      Localized(market, es).value[k].amount
        == if es[k].location == market || (es[k].location == "GLO" && market !in Locations(es)) then 1.0 else 0.0
  {
    var target := if market in Locations(es) then market else "GLO";
    OneHotTotal(es, target);
    assert Localized(market, es).value == OneHot(es, target);
  }

  /** Globalising puts the whole market on the GLO exchange. */
  lemma GlobalizedMix(es: seq<Exchange>)
    requires Distinct(Locations(es)) && "GLO" in Locations(es)
    ensures TotalAmount(Globalized(es).value) == 1.0
    ensures forall k :: 0 <= k < |es| ==> Globalized(es).value[k].amount == if es[k].location == "GLO" then 1.0 else 0.0
  {
    OneHotTotal(es, "GLO");
  }

  // ---------------------------------------------------------------------------
  // Consumption mixes (`dbUpdate_cons_mix`)

  /** `loc_mineral_cons`: the apparent consumption of the market's countries. */
  function LocalConsumption(m: Matrix, t: CountryTable, market: string): real
    requires WellFormed(t) && IsSquare(m, |t.names|)
  {
    SumAt(RowSums(m), CountryIndices(t, market))
  }

  function Divided(row: Vector, l: real): (r: Vector)
    requires l != 0.0
    ensures |r| == |row| && forall c :: 0 <= c < |row| ==> r[c] == row[c] / l
  {
    seq(|row|, c requires 0 <= c < |row| => row[c] / l)
  }

  lemma DividedSum(row: Vector, l: real)
    requires l != 0.0
    ensures Sum(Divided(row, l)) == (1.0 / l) * Sum(row)
  {
    var d := Divided(row, l);
    forall c | 0 <= c < |row| ensures d[c] == (1.0 / l) * row[c] {
      assert row[c] / l == (1.0 / l) * row[c];
    }
    SumScale(row, d, 1.0 / l);
  }

  /** The mix of one producing location: `m[a][b] / l` added up over the
      consuming countries a and, for each, the producing countries b. */
  function MixSum(m: Matrix, n: nat, cons: seq<nat>, prod: seq<nat>, l: real): real
    requires IsSquare(m, n) && Bounded(cons, n) && Bounded(prod, n) && l != 0.0
  {
    if |cons| == 0 then 0.0
    else MixSum(m, n, cons[..|cons| - 1], prod, l) + SumAt(Divided(m[cons[|cons| - 1]], l), prod)
  }

  /** The amount of a producing exchange: 0 for GLO, else its mix. */
  function MixAmount(m: Matrix, t: CountryTable, cons: seq<nat>, l: real, location: string): real
    requires WellFormed(t) && IsSquare(m, |t.names|) && Bounded(cons, |t.names|) && l != 0.0
  {
    if location == "GLO" then 0.0 else MixSum(m, |t.names|, cons, CountryIndices(t, location), l)
  }

  function Mixed(m: Matrix, t: CountryTable, cons: seq<nat>, l: real, es: seq<Exchange>): (r: seq<Exchange>)
    requires WellFormed(t) && IsSquare(m, |t.names|) && Bounded(cons, |t.names|) && l != 0.0
    ensures Locations(r) == Locations(es)
  {
    seq(|es|, k requires 0 <= k < |es| => es[k].(amount := MixAmount(m, t, cons, l, es[k].location)))
  }

  /** `dbUpdate_cons_mix` on one market: without local consumption the
      market is localised; otherwise every exchange gets its mix. */
  function ConsumptionMix(m: Matrix, t: CountryTable, market: string, es: seq<Exchange>): (r: Result<seq<Exchange>>)
    requires WellFormed(t) && IsSquare(m, |t.names|)
    ensures r.Failure? <==> LocalConsumption(m, t, market) == 0.0 && "GLO" !in Locations(es)
    ensures r.Failure? ==> r.error == AssertionError
    ensures r.Success? ==> Locations(r.value) == Locations(es)
  {
    var cons := CountryIndices(t, market);
    var l := LocalConsumption(m, t, market);
    if l == 0.0 then Localized(market, es) else Success(Mixed(m, t, cons, l, es))
  }

  /** The share of a group of producing countries in each consuming country's
      consumption, divided by the market's consumption. */
  function GroupShares(m: Matrix, t: CountryTable, l: real, g: Option<string>): (r: Vector)
    requires WellFormed(t) && IsSquare(m, |t.names|) && l != 0.0
    ensures |r| == |t.names|
  {
    seq(|t.names|, a requires 0 <= a < |t.names| => GroupSum(Divided(m[a], l), t.ecoinvent, g))
  }

  /** The same for all the exchange locations together. */
  function CoveredShares(m: Matrix, t: CountryTable, l: real, es: seq<Exchange>): (r: Vector)
    requires WellFormed(t) && IsSquare(m, |t.names|) && l != 0.0
    ensures |r| == |t.names|
  {
    seq(|t.names|, a requires 0 <= a < |t.names| => CoveredSum(Divided(m[a], l), t.ecoinvent, Groups(es)))
  }

  function RowParts(m: Matrix, n: nat, prod: seq<nat>, l: real): (r: Vector)
    requires IsSquare(m, n) && Bounded(prod, n) && l != 0.0
    ensures |r| == n && forall a :: 0 <= a < n ==> r[a] == SumAt(Divided(m[a], l), prod)
  {
    seq(n, a requires 0 <= a < n => SumAt(Divided(m[a], l), prod))
  }

  lemma {:induction false} MixSumByRows(m: Matrix, n: nat, cons: seq<nat>, prod: seq<nat>, l: real)
    requires IsSquare(m, n) && Bounded(cons, n) && Bounded(prod, n) && l != 0.0
    ensures MixSum(m, n, cons, prod, l) == SumAt(RowParts(m, n, prod, l), cons)
  {
    if |cons| > 0 {
      MixSumByRows(m, n, cons[..|cons| - 1], prod, l);
    }
  }

  /** Each exchange's amount is the group share of its location summed over
      the consuming countries (the GLO group is empty). */
  lemma MixAmountShares(m: Matrix, t: CountryTable, cons: seq<nat>, l: real, location: string)
    requires WellFormed(t) && IsSquare(m, |t.names|) && Bounded(cons, |t.names|) && l != 0.0
    requires Distinct(t.names) && Some("GLO") !in t.ecoinvent
    ensures MixAmount(m, t, cons, l, location) == SumAt(GroupShares(m, t, l, Some(location)), cons)
  {
    var n := |t.names|;
    var shares := GroupShares(m, t, l, Some(location));
    if location == "GLO" {
      forall a | 0 <= a < n ensures shares[a] == 0.0 {
        GroupSumAbsent(Divided(m[a], l), t.ecoinvent, Some(location));
      }
      SumAtZero(shares, cons);
    } else {
      var prod := CountryIndices(t, location);
      MixSumByRows(m, n, cons, prod, l);
      forall a | 0 <= a < n ensures RowParts(m, n, prod, l)[a] == shares[a] {
        LocationSum(Divided(m[a], l), t, location);
      }
      assert RowParts(m, n, prod, l) == shares;
    }
  }

  /** The mixes of a market with distinct exchange locations add up to the
      share of its consumption that those locations produce. */
  lemma ConsumptionMixTotal(m: Matrix, t: CountryTable, market: string, es: seq<Exchange>)
    requires WellFormed(t) && IsSquare(m, |t.names|) && Distinct(t.names) && Some("GLO") !in t.ecoinvent
    requires LocalConsumption(m, t, market) != 0.0 && Distinct(Locations(es))
    ensures TotalAmount(ConsumptionMix(m, t, market, es).value)
         == SumAt(CoveredShares(m, t, LocalConsumption(m, t, market), es), CountryIndices(t, market))
  {
    var n := |t.names|;
    var cons := CountryIndices(t, market);
    var l := LocalConsumption(m, t, market);
    var mixed := ConsumptionMix(m, t, market, es).value;
    assert mixed == Mixed(m, t, cons, l, es);
    var v := seq(|es|, k requires 0 <= k < |es| => GroupShares(m, t, l, Some(es[k].location)));
    forall k | 0 <= k < |es| ensures Amounts(mixed)[k] == Picks(v, n, cons)[k] {
      MixAmountShares(m, t, cons, l, es[k].location);
    }
    assert Amounts(mixed) == Picks(v, n, cons);
    SumAtSwap(v, n, cons);
    var covered := CoveredShares(m, t, l, es);
    forall a | 0 <= a < n ensures Totals(v, n)[a] == covered[a] {
      GroupSumsPartition(Divided(m[a], l), t.ecoinvent, Groups(es), Across(v, n, a));
    }
    assert Totals(v, n) == covered;
  }

  /** When the exchange locations cover every country, the mixes add up to 1. */
  lemma ConsumptionMixSumsToOne(m: Matrix, t: CountryTable, market: string, es: seq<Exchange>)
    requires WellFormed(t) && IsSquare(m, |t.names|) && Distinct(t.names) && Some("GLO") !in t.ecoinvent
    requires LocalConsumption(m, t, market) != 0.0 && Distinct(Locations(es))
    requires forall c :: 0 <= c < |t.ecoinvent| ==> t.ecoinvent[c] in Groups(es)
    ensures TotalAmount(ConsumptionMix(m, t, market, es).value) == 1.0
  {
    var cons := CountryIndices(t, market);
    var l := LocalConsumption(m, t, market);
    ConsumptionMixTotal(m, t, market, es);
    FullShares(m, t, l, es, cons);
  }

  /** A share x / l of l is 1. */
  lemma Normalised(share: real, l: real, x: real)
    requires l != 0.0 && x == l && share == (1.0 / l) * x
    ensures share == 1.0
  {
  }

  /** A share between 0 and x / l of l is at most 1. */
  lemma AtMostNormalised(share: real, l: real, x: real)
    requires l > 0.0 && x == l && 0.0 <= share <= (1.0 / l) * x
    ensures 0.0 <= share <= 1.0
  {
  }

  /** Covering every country, the shares of countries whose consumption adds
      up to l add up to 1. */
  lemma FullShares(m: Matrix, t: CountryTable, l: real, es: seq<Exchange>, idx: seq<nat>)
    requires WellFormed(t) && IsSquare(m, |t.names|) && l != 0.0 && Bounded(idx, |t.names|)
    requires forall c :: 0 <= c < |t.ecoinvent| ==> t.ecoinvent[c] in Groups(es)
    requires SumAt(RowSums(m), idx) == l
    ensures SumAt(CoveredShares(m, t, l, es), idx) == 1.0
  {
    ScaledShares(m, t, l, es, idx);
    Normalised(SumAt(CoveredShares(m, t, l, es), idx), l, SumAt(RowSums(m), idx));
  }

  /** Covering every country, each country's shares add up to its whole
      consumption over l. */
  lemma ScaledShares(m: Matrix, t: CountryTable, l: real, es: seq<Exchange>, idx: seq<nat>)
    requires WellFormed(t) && IsSquare(m, |t.names|) && l != 0.0 && Bounded(idx, |t.names|)
    requires forall c :: 0 <= c < |t.ecoinvent| ==> t.ecoinvent[c] in Groups(es)
    ensures SumAt(CoveredShares(m, t, l, es), idx) == (1.0 / l) * SumAt(RowSums(m), idx)
  {
    var covered := CoveredShares(m, t, l, es);
    forall a | 0 <= a < |t.names| ensures covered[a] == (1.0 / l) * RowSums(m)[a] {
      RowShare(m, t, l, es, a);
    }
    SumAtScale(RowSums(m), covered, 1.0 / l, idx);
  }

  lemma RowShare(m: Matrix, t: CountryTable, l: real, es: seq<Exchange>, a: nat)
    requires WellFormed(t) && IsSquare(m, |t.names|) && l != 0.0 && a < |t.names|
    requires forall c :: 0 <= c < |t.ecoinvent| ==> t.ecoinvent[c] in Groups(es)
    ensures CoveredShares(m, t, l, es)[a] == (1.0 / l) * RowSums(m)[a]
  {
    CoveredSumAll(Divided(m[a], l), t.ecoinvent, Groups(es));
    DividedSum(m[a], l);
  }

  /** With nonnegative flows the mixes never add up to more than 1, so the
      warning `tot_input_mix < 1` flags consumption from uncovered countries. */
  lemma ConsumptionMixAtMostOne(m: Matrix, t: CountryTable, market: string, es: seq<Exchange>)
    requires WellFormed(t) && IsSquare(m, |t.names|) && Distinct(t.names) && Some("GLO") !in t.ecoinvent
    requires LocalConsumption(m, t, market) != 0.0 && Distinct(Locations(es)) && NonNegative(m)
    ensures 0.0 <= TotalAmount(ConsumptionMix(m, t, market, es).value) <= 1.0
  {
    var cons := CountryIndices(t, market);
    var l := LocalConsumption(m, t, market);
    forall a | 0 <= a < |t.names| ensures RowSums(m)[a] >= 0.0 {
      RowSumNonNegative(m, a);
    }
    SumAtNonNegative(RowSums(m), cons);
    ConsumptionMixTotal(m, t, market, es);
    BoundedShares(m, t, l, es, cons);
  }

  function ScaledBy(c: real, v: Vector): (r: Vector)
    ensures |r| == |v| && forall a :: 0 <= a < |v| ==> r[a] == c * v[a]
  {
    seq(|v|, a requires 0 <= a < |v| => c * v[a])
  }

  /** With nonnegative flows, the covered shares of countries whose
      consumption adds up to l > 0 lie between 0 and 1. */
  lemma BoundedShares(m: Matrix, t: CountryTable, l: real, es: seq<Exchange>, idx: seq<nat>)
    requires WellFormed(t) && IsSquare(m, |t.names|) && l > 0.0 && NonNegative(m) && Bounded(idx, |t.names|)
    requires SumAt(RowSums(m), idx) == l
    ensures 0.0 <= SumAt(CoveredShares(m, t, l, es), idx) <= 1.0
  {
    ScaledBound(m, t, l, es, idx);
    AtMostNormalised(SumAt(CoveredShares(m, t, l, es), idx), l, SumAt(RowSums(m), idx));
  }

  /** With nonnegative flows and l > 0, the covered shares of any countries
      lie between 0 and their whole consumption over l. */
  lemma ScaledBound(m: Matrix, t: CountryTable, l: real, es: seq<Exchange>, idx: seq<nat>)
    requires WellFormed(t) && IsSquare(m, |t.names|) && l > 0.0 && NonNegative(m) && Bounded(idx, |t.names|)
    ensures 0.0 <= SumAt(CoveredShares(m, t, l, es), idx) <= (1.0 / l) * SumAt(RowSums(m), idx)
  {
    var covered := CoveredShares(m, t, l, es);
    var bound := ScaledBy(1.0 / l, RowSums(m));
    forall a | 0 <= a < |t.names| ensures 0.0 <= covered[a] <= bound[a] {
      RowBound(m, t, l, es, a);
    }
    SumAtNonNegative(covered, idx);
    SumAtMonotone(covered, bound, idx);
    SumAtScale(RowSums(m), bound, 1.0 / l, idx);
  }

  lemma RowBound(m: Matrix, t: CountryTable, l: real, es: seq<Exchange>, a: nat)
    requires WellFormed(t) && IsSquare(m, |t.names|) && l > 0.0 && NonNegative(m) && a < |t.names|
    ensures 0.0 <= CoveredShares(m, t, l, es)[a] <= (1.0 / l) * RowSums(m)[a]
  {
    var d := Divided(m[a], l);
    DividedNonNegative(m[a], l);
    CoveredSumBounded(d, t.ecoinvent, Groups(es));
    DividedSum(m[a], l);
    assert CoveredShares(m, t, l, es)[a] == CoveredSum(d, t.ecoinvent, Groups(es));
    assert RowSums(m)[a] == Sum(m[a]);
  }

  lemma DividedNonNegative(row: Vector, l: real)
    requires NonNegativeVector(row) && l > 0.0
    ensures NonNegativeVector(Divided(row, l))
  {
    var d := Divided(row, l);
    forall c | 0 <= c < |d| ensures d[c] >= 0.0 {
      Quotient(row[c], l);
    }
  }

  lemma Quotient(x: real, l: real)
    requires x >= 0.0 && l > 0.0
    ensures x / l >= 0.0
  {
  }

  /** The nested loop over consuming and producing countries. */
  method MixOf(m: Matrix, n: nat, cons: seq<nat>, prod: seq<nat>, l: real) returns (mix: real)
    requires IsSquare(m, n) && Bounded(cons, n) && Bounded(prod, n) && l != 0.0
    ensures mix == MixSum(m, n, cons, prod, l)
  {
    mix := 0.0;
    for i := 0 to |cons|
      invariant mix == MixSum(m, n, cons[..i], prod, l)
    {
      for j := 0 to |prod|
        invariant mix == MixSum(m, n, cons[..i], prod, l) + SumAt(Divided(m[cons[i]], l), prod[..j])
      {
        mix := mix + m[cons[i]][prod[j]] / l;
        assert prod[..j + 1][..j] == prod[..j];
      }
      assert prod[..|prod|] == prod;
      assert cons[..i + 1][..i] == cons[..i];
    }
    assert cons[..|cons|] == cons;
  }

  // ---------------------------------------------------------------------------
  // The global production mix (`dbUpdate_aluminum_global_production`)

  function Diagonal(p: Matrix, n: nat): (d: Vector)
    requires IsSquare(p, n)
    ensures |d| == n && forall c :: 0 <= c < n ==> d[c] == p[c][c]
  {
    seq(n, c requires 0 <= c < n => p[c][c])
  }

  /** 0 for GLO, else the production of the location's countries. */
  function ProductionAmount(p: Matrix, t: CountryTable, location: string): real
    requires WellFormed(t) && IsSquare(p, |t.names|)
  {
    if location == "GLO" then 0.0 else SumAt(Diagonal(p, |t.names|), CountryIndices(t, location))
  }

  function ProductionMix(p: Matrix, t: CountryTable, es: seq<Exchange>): (r: seq<Exchange>)
    requires WellFormed(t) && IsSquare(p, |t.names|)
    ensures Locations(r) == Locations(es)
  {
    seq(|es|, k requires 0 <= k < |es| => es[k].(amount := ProductionAmount(p, t, es[k].location)))
  }

  /** The global mix adds up the production of the covered countries. */
  lemma ProductionMixTotal(p: Matrix, t: CountryTable, es: seq<Exchange>)
    requires WellFormed(t) && IsSquare(p, |t.names|) && Distinct(t.names) && Some("GLO") !in t.ecoinvent
    requires Distinct(Locations(es))
    ensures TotalAmount(ProductionMix(p, t, es)) == CoveredSum(Diagonal(p, |t.names|), t.ecoinvent, Groups(es))
  {
    var d := Diagonal(p, |t.names|);
    var amounts := Amounts(ProductionMix(p, t, es));
    forall k | 0 <= k < |es| ensures amounts[k] == GroupSum(d, t.ecoinvent, Groups(es)[k]) {
      if es[k].location == "GLO" {
        GroupSumAbsent(d, t.ecoinvent, Some("GLO"));
      } else {
        LocationSum(d, t, es[k].location);
      }
    }
    GroupSumsPartition(d, t.ecoinvent, Groups(es), amounts);
  }

  /** A diagonal production matrix totals its diagonal. */
  lemma DiagonalTotal(p: Matrix, n: nat)
    requires IsSquare(p, n) && IsDiagonal(p)
    ensures Total(p) == Sum(Diagonal(p, n))
  {
    forall c | 0 <= c < n ensures RowSums(p)[c] == Diagonal(p, n)[c] {
      SumSingle(p[c], c);
    }
    assert RowSums(p) == Diagonal(p, n);
  }

  /** When the exchange locations cover every country, the global mix adds up
      to the total production and no warning is due. */
  lemma ProductionMixComplete(p: Matrix, t: CountryTable, es: seq<Exchange>)
    requires WellFormed(t) && IsSquare(p, |t.names|) && Distinct(t.names) && Some("GLO") !in t.ecoinvent
    requires Distinct(Locations(es)) && IsDiagonal(p)
    requires forall c :: 0 <= c < |t.ecoinvent| ==> t.ecoinvent[c] in Groups(es)
    ensures TotalAmount(ProductionMix(p, t, es)) == Total(p)
  {
    ProductionMixTotal(p, t, es);
    CoveredSumAll(Diagonal(p, |t.names|), t.ecoinvent, Groups(es));
    DiagonalTotal(p, |t.names|);
  }

  /** With nonnegative production the mix never exceeds the total production. */
  lemma ProductionMixBounded(p: Matrix, t: CountryTable, es: seq<Exchange>)
    requires WellFormed(t) && IsSquare(p, |t.names|) && Distinct(t.names) && Some("GLO") !in t.ecoinvent
    requires Distinct(Locations(es)) && IsDiagonal(p) && NonNegative(p)
    ensures 0.0 <= TotalAmount(ProductionMix(p, t, es)) <= Total(p)
  {
    ProductionMixTotal(p, t, es);
    CoveredSumBounded(Diagonal(p, |t.names|), t.ecoinvent, Groups(es));
    DiagonalTotal(p, |t.names|);
  }

  /** The loop over the countries of one location. */
  method ProductionOf(p: Matrix, n: nat, countries: seq<nat>) returns (mix: real)
    requires IsSquare(p, n) && Bounded(countries, n)
    ensures mix == SumAt(Diagonal(p, n), countries)
  {
    mix := 0.0;
    for j := 0 to |countries|
      invariant mix == SumAt(Diagonal(p, n), countries[..j])
    {
      mix := mix + p[countries[j]][countries[j]];
      assert countries[..j + 1][..j] == countries[..j];
    }
    assert countries[..|countries|] == countries;
  }

  // ---------------------------------------------------------------------------
  // A market for consumption, updated in place

  class Market {
    var location: string
    var exchanges: seq<Exchange>

    constructor (location: string, exchanges: seq<Exchange>)
      ensures this.location == location && this.exchanges == exchanges
    {
      this.location := location;
      this.exchanges := exchanges;
    }

    method SetOneHot(target: string)
      modifies this
      ensures location == old(location)
      ensures exchanges == OneHot(old(exchanges), target)
    {
      for k := 0 to |exchanges|
        invariant location == old(location) && |exchanges| == |old(exchanges)|
        invariant forall j :: 0 <= j < k ==> exchanges[j] == OneHot(old(exchanges), target)[j]
        invariant forall j :: k <= j < |exchanges| ==> exchanges[j] == old(exchanges)[j]
      {
        var amount := if exchanges[k].location == target then 1.0 else 0.0;
        exchanges := exchanges[k := exchanges[k].(amount := amount)];
      }
    }

    /** `dbUpdate_localize` for this market. */
    method Localize() returns (r: Result<()>)
      modifies this
      ensures location == old(location)
      ensures Localized(location, old(exchanges)).Failure? ==> r == Failure(AssertionError) && exchanges == old(exchanges)
      ensures Localized(location, old(exchanges)).Success? ==> r.Success? && exchanges == Localized(location, old(exchanges)).value
    {
      if "GLO" !in Locations(exchanges) {
        return Failure(AssertionError);
      }
      SetOneHot(if location in Locations(exchanges) then location else "GLO");
      return Success(());
    }

    /** `dbUpdate_globalize` for this market. */
    method Globalize() returns (r: Result<()>)
      modifies this
      ensures location == old(location)
      ensures Globalized(old(exchanges)).Failure? ==> r == Failure(AssertionError) && exchanges == old(exchanges)
      ensures Globalized(old(exchanges)).Success? ==> r.Success? && exchanges == Globalized(old(exchanges)).value
    {
      if "GLO" !in Locations(exchanges) {
        return Failure(AssertionError);
      }
      SetOneHot("GLO");
      return Success(());
    }

    /** `dbUpdate_cons_mix` for this market; the result tells whether the
        warning about mixes adding up to less than 1 is logged. */
    method UpdateConsumptionMix(m: Matrix, t: CountryTable) returns (r: Result<bool>)
      requires WellFormed(t) && IsSquare(m, |t.names|)
      modifies this
      ensures location == old(location)
      ensures ConsumptionMix(m, t, location, old(exchanges)).Failure? ==> r == Failure(AssertionError) && exchanges == old(exchanges)
      ensures ConsumptionMix(m, t, location, old(exchanges)).Success? ==>
        r.Success? && exchanges == ConsumptionMix(m, t, location, old(exchanges)).value
      ensures r.Success? ==> (r.value <==> LocalConsumption(m, t, location) != 0.0 && TotalAmount(exchanges) < 1.0)
    {
      var cons := CountryIndices(t, location);
      var l := LocalConsumption(m, t, location);
      if l == 0.0 {
        var u := Localize();
        if u.Failure? {
          return Failure(u.error);
        }
        return Success(false);
      }
      var total := 0.0;
      for k := 0 to |exchanges|
        invariant location == old(location) && |exchanges| == |old(exchanges)|
        invariant forall j :: 0 <= j < k ==> exchanges[j] == Mixed(m, t, cons, l, old(exchanges))[j]
        invariant forall j :: k <= j < |exchanges| ==> exchanges[j] == old(exchanges)[j]
        invariant total == Sum(Amounts(exchanges)[..k])
      {
        var mix := 0.0;
        if exchanges[k].location != "GLO" {
          mix := MixOf(m, |t.names|, cons, CountryIndices(t, exchanges[k].location), l);
        }
        ghost var before := exchanges;
        exchanges := exchanges[k := exchanges[k].(amount := mix)];
        assert Amounts(exchanges)[..k] == Amounts(before)[..k];
        SumPrefix(Amounts(exchanges), k);
        total := total + mix;
      }
      assert Amounts(exchanges)[..|exchanges|] == Amounts(exchanges);
      assert exchanges == Mixed(m, t, cons, l, old(exchanges));
      return Success(total < 1.0);
    }

    /** `dbUpdate_aluminum_global_production`: the market moves to GLO and
        gets the production of each location; the result tells whether the
        warning about inputs below total production is logged. */
    method UpdateGlobalProduction(p: Matrix, t: CountryTable) returns (warning: bool)
      requires WellFormed(t) && IsSquare(p, |t.names|)
      modifies this
      ensures location == "GLO"
      ensures exchanges == ProductionMix(p, t, old(exchanges))
      ensures warning <==> TotalAmount(exchanges) < Total(p)
    {
      location := "GLO";
      var total := 0.0;
      for k := 0 to |exchanges|
        invariant location == "GLO" && |exchanges| == |old(exchanges)|
        invariant forall j :: 0 <= j < k ==> exchanges[j] == ProductionMix(p, t, old(exchanges))[j]
        invariant forall j :: k <= j < |exchanges| ==> exchanges[j] == old(exchanges)[j]
        invariant total == Sum(Amounts(exchanges)[..k])
      {
        var mix := 0.0;
        if exchanges[k].location != "GLO" {
          mix := ProductionOf(p, |t.names|, CountryIndices(t, exchanges[k].location));
        }
        ghost var before := exchanges;
        exchanges := exchanges[k := exchanges[k].(amount := mix)];
        assert Amounts(exchanges)[..k] == Amounts(before)[..k];
        SumPrefix(Amounts(exchanges), k);
        total := total + mix;
      }
      assert Amounts(exchanges)[..|exchanges|] == Amounts(exchanges);
      assert exchanges == ProductionMix(p, t, old(exchanges));
      warning := total < Total(p);
    }
  }

  // ---------------------------------------------------------------------------
  // Energy inputs of alumina and liquid aluminium production
  // (`dbUpdate_EnerAlumina`, `dbUpdate_ElecAluLiq`)

  /** A technosphere exchange of a production process: the name of its input
      activity, its unit and its amount. */
  datatype Input = Input(name: string, unit: string, amount: real)

  predicate EnergyUnit(unit: string)
  {
    unit == "megajoule" || unit == "kilowatt hour"
  }

  /** The amount of an energy exchange per kg of alumina, from the share `mix`
      of its energy source and the intensity in MJ per tonne of alumina. */
  function EnergyAmount(unit: string, mix: real, intensity: real): (r: Option<real>)
    ensures r.Some? <==> EnergyUnit(unit)
  {
    if unit == "megajoule" then Some(mix * intensity / 1000.0)
    else if unit == "kilowatt hour" then Some(mix * intensity / 1000.0 / 3.6)
    else None
  }

  /** Both units carry the same energy: 1 kWh is 3.6 MJ. */
  lemma SameEnergy(mix: real, intensity: real)
    ensures EnergyAmount("kilowatt hour", mix, intensity).value * 3.6 == EnergyAmount("megajoule", mix, intensity).value
  {
  }

  /** The positions of the exchanges whose input name contains `name`, ascending. */
  function Matching(es: seq<Input>, name: string): (r: seq<nat>)
    ensures forall j :: 0 <= j < |r| ==> r[j] < |es| && ContainsSubstring(es[r[j]].name, name)
  {
    if |es| == 0 then []
    else Matching(es[..|es| - 1], name) + (if ContainsSubstring(es[|es| - 1].name, name) then [|es| - 1] else [])
  }

  /** The exchanges found are all of them, in ascending order. */
  lemma {:induction false} MatchingComplete(es: seq<Input>, name: string)
    ensures forall p :: 0 <= p < |es| && ContainsSubstring(es[p].name, name) ==> p in Matching(es, name)
    ensures forall i, j :: 0 <= i < j < |Matching(es, name)| ==> Matching(es, name)[i] < Matching(es, name)[j]
  {
    MatchingAll(es, name);
    MatchingSorted(es, name);
  }

  lemma {:induction false} MatchingAll(es: seq<Input>, name: string)
    ensures forall p :: 0 <= p < |es| && ContainsSubstring(es[p].name, name) ==> p in Matching(es, name)
  {
    if |es| > 0 {
      var n := |es|;
      var prev := Matching(es[..n - 1], name);
      var r := Matching(es, name);
      MatchingAll(es[..n - 1], name);
      forall p | 0 <= p < n && ContainsSubstring(es[p].name, name) ensures p in r {
        if p < n - 1 {
          assert es[..n - 1][p] == es[p];
          var i :| 0 <= i < |prev| && prev[i] == p;
          assert r[i] == p;
        } else {
          assert r[|r| - 1] == p;
        }
      }
    }
  }

  lemma {:induction false} MatchingSorted(es: seq<Input>, name: string)
    ensures forall i, j :: 0 <= i < j < |Matching(es, name)| ==> Matching(es, name)[i] < Matching(es, name)[j]
  {
    if |es| > 0 {
      var n := |es|;
      var prev := Matching(es[..n - 1], name);
      var r := Matching(es, name);
      MatchingSorted(es[..n - 1], name);
      forall i, j | 0 <= i < j < |r| ensures r[i] < r[j] {
        if j < |prev| {
          assert r[i] == prev[i] && r[j] == prev[j];
          assert prev[i] < prev[j];
        } else {
          assert r[i] == prev[i] && r[j] == n - 1;
        }
      }
    }
  }

  /** No exchange before the first one found matches. */
  lemma MatchingFirst(es: seq<Input>, name: string)
    requires |Matching(es, name)| > 0
    ensures forall p :: 0 <= p < |es| && ContainsSubstring(es[p].name, name) ==> Matching(es, name)[0] <= p
  {
    var r := Matching(es, name);
    MatchingComplete(es, name);
    forall p | 0 <= p < |es| && ContainsSubstring(es[p].name, name) ensures r[0] <= p {
      var i :| 0 <= i < |r| && r[i] == p;
      if 0 < i {
        assert r[0] < r[i];
      }
    }
  }

  /** Two exchange lists that differ at most in their amounts. */
  predicate SameInputs(a: seq<Input>, b: seq<Input>)
  {
    |a| == |b| && forall j :: 0 <= j < |a| ==> a[j].name == b[j].name && a[j].unit == b[j].unit
  }

  lemma {:induction false} MatchingSameInputs(a: seq<Input>, b: seq<Input>, name: string)
    requires SameInputs(a, b)
    ensures Matching(a, name) == Matching(b, name)
  {
    if |a| > 0 {
      MatchingSameInputs(a[..|a| - 1], b[..|b| - 1], name);
    }
  }

  /** The exchange `energy_exc` refers to: one of this process's exchanges,
      or an exchange of an alumina process handled earlier in the same call,
      which the variable still holds; of that one only its unit is seen here. */
  datatype Handle = Own(index: nat) | Earlier(unit: string)

  /** What `energy_exc` and `energy_exc_amount` hold when a process is
      reached. They are locals of the whole function, not of one process:
      both are unbound for the first process, and every later process finds
      what the process before left in them (of the exchange, its unit). */
  datatype Carry = Carry(unit: Option<string>, amount: Option<real>)

  const Unbound: Carry := Carry(None, None)

  /** The variables of the loop of `dbUpdate_EnerAlumina` that outlive an
      iteration: the exchange found last (`energy_exc`), the amount computed
      last (`energy_exc_amount`), the running total of the mixes, and the
      amount last written into an earlier process's exchange through a
      `energy_exc` left over from that process. */
  datatype EnergyState = EnergyState(inputs: seq<Input>, found: Option<Handle>, amount: Option<real>, total: real, earlier: Option<real>)

  predicate ValidState(s: EnergyState)
  {
    s.found.Some? && s.found.value.Own? ==> s.found.value.index < |s.inputs|
  }

  /** The state a process starts from, given what the loop variables hold. */
  function Start(es: seq<Input>, carry: Carry): EnergyState
  {
    EnergyState(es, if carry.unit.Some? then Some(Earlier(carry.unit.value)) else None, carry.amount, 0.0, None)
  }

  /** The unit of the exchange a handle refers to. */
  function UnitOf(inputs: seq<Input>, h: Handle): string
    requires h.Own? ==> h.index < |inputs|
  {
    match h
    case Own(p) => inputs[p].unit
    case Earlier(u) => u
  }

  /** What the loop variables hold for the next process. */
  function CarryOut(s: EnergyState): Carry
    requires ValidState(s)
  {
    Carry(if s.found.None? then None else Some(UnitOf(s.inputs, s.found.value)), s.amount)
  }

  /** One iteration, for the energy source `name` with share `mix`. A name
      that does not find exactly one exchange keeps the exchange found
      before, and an exchange in another unit keeps the amount computed
      before; with nothing from before, the variable is unbound. The amount
      is written into the exchange held, which may be an earlier process's. */
  function EnergyStep(s: EnergyState, name: string, mix: real, intensity: real): (r: Result<EnergyState>)
    requires ValidState(s)
    ensures r.Success? ==> ValidState(r.value) && SameInputs(s.inputs, r.value.inputs) && r.value.total == s.total + mix
    ensures r.Success? ==> r.value.found.Some? && r.value.amount.Some?
    ensures r.Failure? ==> r.error == NameError
  {
    var found := FoundAfter(s, name);
    if found.None? then Failure(NameError)
    else
      var amount := AmountAfter(UnitOf(s.inputs, found.value), mix, intensity, s.amount);
      if amount.None? then Failure(NameError)
      else match found.value
        case Own(p) => Success(EnergyState(s.inputs[p := s.inputs[p].(amount := amount.value)], found, amount, s.total + mix, s.earlier))
        case Earlier(_) => Success(EnergyState(s.inputs, found, amount, s.total + mix, amount))
  }

  /** `energy_exc` after looking up `name`. */
  function FoundAfter(s: EnergyState, name: string): (r: Option<Handle>)
    requires ValidState(s)
    ensures r.Some? && r.value.Own? ==> r.value.index < |s.inputs|
    ensures |Matching(s.inputs, name)| == 1 ==> r == Some(Own(Matching(s.inputs, name)[0]))
    ensures |Matching(s.inputs, name)| != 1 ==> r == s.found
  {
    var matches := Matching(s.inputs, name);
    if |matches| == 1 then Some(Own(matches[0])) else s.found
  }

  /** `energy_exc_amount` after converting for an exchange in `unit`. */
  function AmountAfter(unit: string, mix: real, intensity: real, previous: Option<real>): Option<real>
  {
    if EnergyUnit(unit) then EnergyAmount(unit, mix, intensity) else previous
  }


  /** The state where the loop stops, and the exception that stopped it. */
  datatype EnergyRun = EnergyRun(state: EnergyState, error: Option<Error>)

  function RunEnergy(s: EnergyState, names: seq<string>, mixes: seq<real>, intensity: real): (r: EnergyRun)
    requires ValidState(s) && |names| == |mixes|
    ensures ValidState(r.state) && SameInputs(s.inputs, r.state.inputs)
    ensures r.error.Some? ==> r.error.value == NameError
    decreases |names|
  {
    if |names| == 0 then EnergyRun(s, None)
    else
      match EnergyStep(s, names[0], mixes[0], intensity)
      case Failure(e) => EnergyRun(s, Some(e))
      case Success(next) => RunEnergy(next, names[1..], mixes[1..], intensity)
  }

  /** What `dbUpdate_EnerAlumina` leaves after one process: the exception it
      raises or whether it logs the warning about mixes adding up to less than
      0.99, the process's exchanges, the amount last written into an earlier
      process's exchange, and what the loop variables hold for the next process. */
  datatype EnergyUpdate = EnergyUpdate(result: Result<bool>, inputs: seq<Input>, earlier: Option<real>, next: Carry)

  /** As the source is written: the process starts from whatever the loop
      variables hold. */
  function AluminaEnergy(es: seq<Input>, names: seq<string>, mixes: seq<real>, intensity: real, carry: Carry): (r: EnergyUpdate)
    requires |names| == |mixes|
    ensures SameInputs(es, r.inputs)
    ensures r.result.Failure? ==> r.result.error == NameError
  {
    var run := RunEnergy(Start(es, carry), names, mixes, intensity);
    EnergyUpdate(if run.error.Some? then Failure(run.error.value) else Success(run.state.total < 0.99),
                 run.state.inputs, run.state.earlier, CarryOut(run.state))
  }

  /** As evidently intended: each process starts with the loop variables
      unbound, so it never writes outside its own exchanges. */
  function AluminaEnergyReset(es: seq<Input>, names: seq<string>, mixes: seq<real>, intensity: real): (r: EnergyUpdate)
    requires |names| == |mixes|
    ensures SameInputs(es, r.inputs)
    ensures r.result.Failure? ==> r.result.error == NameError
    ensures r.earlier.None?
  {
    RunStaysLocal(Start(es, Unbound), names, mixes, intensity);
    AluminaEnergy(es, names, mixes, intensity, Unbound)
  }

  /** A run that holds no exchange of an earlier process never comes to hold
      one, and writes nothing outside its own exchanges. */
  lemma {:induction false} RunStaysLocal(s: EnergyState, names: seq<string>, mixes: seq<real>, intensity: real)
    requires ValidState(s) && |names| == |mixes|
    requires (s.found.None? || s.found.value.Own?) && s.earlier.None?
    ensures RunEnergy(s, names, mixes, intensity).state.earlier.None?
    ensures RunEnergy(s, names, mixes, intensity).state.found.None? || RunEnergy(s, names, mixes, intensity).state.found.value.Own?
    decreases |names|
  {
    if |names| > 0 {
      var step := EnergyStep(s, names[0], mixes[0], intensity);
      if step.Success? {
        RunStaysLocal(step.value, names[1..], mixes[1..], intensity);
      }
    }
  }

  /** As written, a later process whose first energy name finds no single
      exchange of its own does not fail: the amount for this process's region
      is written into the exchange the process before left in `energy_exc`,
      and this process's own exchanges stay as they were. */
  lemma StaleExchangeOverwritten(es: seq<Input>, name: string, mix: real, intensity: real, unit: string, amount: Option<real>)
    requires |Matching(es, name)| != 1 && EnergyUnit(unit)
    ensures AluminaEnergy(es, [name], [mix], intensity, Carry(Some(unit), amount))
         == EnergyUpdate(Success(mix < 0.99), es, EnergyAmount(unit, mix, intensity),
                         Carry(Some(unit), EnergyAmount(unit, mix, intensity)))
  {
    var s := Start(es, Carry(Some(unit), amount));
    var next := EnergyState(es, Some(Earlier(unit)), EnergyAmount(unit, mix, intensity), 0.0 + mix, EnergyAmount(unit, mix, intensity));
    assert EnergyStep(s, name, mix, intensity) == Success(next);
    assert [name][1..] == [] && [mix][1..] == [];
    assert RunEnergy(s, [name], [mix], intensity) == RunEnergy(next, [], [], intensity) == EnergyRun(next, None);
    assert CarryOut(next) == Carry(Some(unit), EnergyAmount(unit, mix, intensity));
  }

  /** A run whose step at k fails stops there, in the state before it. */
  lemma RunFails(s: EnergyState, names: seq<string>, mixes: seq<real>, intensity: real, k: nat)
    requires ValidState(s) && |names| == |mixes| && k < |names|
    requires EnergyStep(s, names[k], mixes[k], intensity).Failure?
    ensures RunEnergy(s, names[k..], mixes[k..], intensity)
         == EnergyRun(s, Some(EnergyStep(s, names[k], mixes[k], intensity).error))
  {
    assert names[k..][0] == names[k] && mixes[k..][0] == mixes[k];
  }

  /** A run whose step at k succeeds goes on from the state after it. */
  lemma RunContinues(s: EnergyState, names: seq<string>, mixes: seq<real>, intensity: real, k: nat, next: EnergyState)
    requires ValidState(s) && |names| == |mixes| && k < |names|
    requires EnergyStep(s, names[k], mixes[k], intensity) == Success(next)
    ensures RunEnergy(s, names[k..], mixes[k..], intensity) == RunEnergy(next, names[k + 1..], mixes[k + 1..], intensity)
  {
    assert names[k..][0] == names[k] && names[k..][1..] == names[k + 1..];
    assert mixes[k..][0] == mixes[k] && mixes[k..][1..] == mixes[k + 1..];
  }

  /** An iteration that finds an exchange and an amount writes the amount
      into that exchange: one of the process's own, or the earlier one held. */
  lemma StepTaken(s: EnergyState, name: string, mix: real, intensity: real, h: Handle, a: real)
    requires ValidState(s) && FoundAfter(s, name) == Some(h)
    requires AmountAfter(UnitOf(s.inputs, h), mix, intensity, s.amount) == Some(a)
    ensures h.Own? ==>
      EnergyStep(s, name, mix, intensity)
        == Success(EnergyState(s.inputs[h.index := s.inputs[h.index].(amount := a)], Some(h), Some(a), s.total + mix, s.earlier))
    ensures h.Earlier? ==>
      EnergyStep(s, name, mix, intensity) == Success(EnergyState(s.inputs, Some(h), Some(a), s.total + mix, Some(a)))
  {
  }

  /** One iteration of the loop of `dbUpdate_EnerAlumina` on its variables:
      look the name up, keep the exchange held before when it finds no single
      one, convert the mix for the exchange's unit, write the amount. */
  method EnergyIteration(s: EnergyState, name: string, mix: real, intensity: real) returns (r: Result<EnergyState>)
    requires ValidState(s)
    ensures r == EnergyStep(s, name, mix, intensity)
  {
    var matches := Matching(s.inputs, name);
    var f := s.found;
    if |matches| == 1 {
      f := Some(Own(matches[0]));
    }
    if f.None? {
      return Failure(NameError);
    }
    var a := s.amount;
    var unit := UnitOf(s.inputs, f.value);
    if EnergyUnit(unit) {
      a := EnergyAmount(unit, mix, intensity);
    }
    if a.None? {
      return Failure(NameError);
    }
    var inputs, earlier := s.inputs, s.earlier;
    if f.value.Own? {
      inputs := inputs[f.value.index := inputs[f.value.index].(amount := a.value)];
    } else {
      earlier := a;
    }
    return Success(EnergyState(inputs, f, a, s.total + mix, earlier));
  }

  /** The exchange a name finds when it finds exactly one. */
  function Target(es: seq<Input>, name: string): nat
    requires |Matching(es, name)| == 1
  {
    Matching(es, name)[0]
  }

  /** Every name finds exactly one exchange, in MJ or kWh, and no two names
      find the same one. */
  predicate OneToOne(es: seq<Input>, names: seq<string>)
  {
    (forall k :: 0 <= k < |names| ==> |Matching(es, names[k])| == 1)
    && (forall k :: 0 <= k < |names| ==> EnergyUnit(es[Target(es, names[k])].unit))
    && (forall i, j :: 0 <= i < j < |names| ==> Target(es, names[i]) != Target(es, names[j]))
  }

  predicate Untouched(es: seq<Input>, names: seq<string>, p: nat)
    requires forall k :: 0 <= k < |names| ==> |Matching(es, names[k])| == 1
  {
    forall k :: 0 <= k < |names| ==> Target(es, names[k]) != p
  }

  predicate Converted(es: seq<Input>, after: seq<Input>, names: seq<string>, mixes: seq<real>, intensity: real)
    requires OneToOne(es, names) && |names| == |mixes| && |after| == |es|
  {
    forall k :: 0 <= k < |names| ==>
      after[Target(es, names[k])].amount == EnergyAmount(es[Target(es, names[k])].unit, mixes[k], intensity).value
  }

  /** When every name finds its own exchange, the loop runs through: each
      found exchange gets its converted amount, the others keep theirs, and
      the total is the sum of the mixes. */
  lemma {:induction false} EnergyOneToOne(s: EnergyState, names: seq<string>, mixes: seq<real>, intensity: real)
    requires ValidState(s) && |names| == |mixes| && OneToOne(s.inputs, names)
    ensures RunEnergy(s, names, mixes, intensity).error.None?
    ensures RunEnergy(s, names, mixes, intensity).state.total == s.total + Sum(mixes)
    ensures Converted(s.inputs, RunEnergy(s, names, mixes, intensity).state.inputs, names, mixes, intensity)
    ensures forall p :: 0 <= p < |s.inputs| && Untouched(s.inputs, names, p) ==>
      RunEnergy(s, names, mixes, intensity).state.inputs[p] == s.inputs[p]
    decreases |names|
  {
    if |names| == 0 {
      SumZero(mixes);
    } else {
      var next := EnergyStep(s, names[0], mixes[0], intensity).value;
      FirstStep(s, names, mixes, intensity);
      EnergyOneToOne(next, names[1..], mixes[1..], intensity);
      SumFirst(mixes);
      var after := RunEnergy(next, names[1..], mixes[1..], intensity).state.inputs;
      assert RunEnergy(s, names, mixes, intensity).state.inputs == after;
      RestOfRun(s.inputs, next.inputs, after, names, mixes, intensity);
    }
  }

  lemma SumFirst(s: Vector)
    requires |s| > 0
    ensures Sum(s) == s[0] + Sum(s[1..])
  {
    assert s == [s[0]] + s[1..];
    SumConcat([s[0]], s[1..]);
    assert Sum([s[0]]) == s[0];
  }

  /** The first iteration finds its own exchange and converts it; the names
      after it find the same exchanges as before. */
  lemma FirstStep(s: EnergyState, names: seq<string>, mixes: seq<real>, intensity: real)
    requires ValidState(s) && |names| == |mixes| && |names| > 0 && OneToOne(s.inputs, names)
    ensures EnergyStep(s, names[0], mixes[0], intensity).Success?
    ensures var es := s.inputs; var p := Target(es, names[0]);
      EnergyStep(s, names[0], mixes[0], intensity).value.inputs
        == es[p := es[p].(amount := EnergyAmount(es[p].unit, mixes[0], intensity).value)]
    ensures OneToOne(EnergyStep(s, names[0], mixes[0], intensity).value.inputs, names[1..])
    ensures forall k :: 1 <= k < |names| ==>
      Matching(EnergyStep(s, names[0], mixes[0], intensity).value.inputs, names[k]) == Matching(s.inputs, names[k])
  {
    var next := EnergyStep(s, names[0], mixes[0], intensity).value;
    forall k | 1 <= k < |names| ensures Matching(next.inputs, names[k]) == Matching(s.inputs, names[k]) {
      MatchingSameInputs(s.inputs, next.inputs, names[k]);
    }
    forall k | 0 <= k < |names| - 1 ensures names[1..][k] == names[k + 1] {
    }
  }

  /** What the first iteration did survives the rest of the run. */
  lemma RestOfRun(es: seq<Input>, next: seq<Input>, after: seq<Input>, names: seq<string>, mixes: seq<real>, intensity: real)
    requires |names| == |mixes| && |names| > 0 && OneToOne(es, names) && |next| == |es| == |after|
    requires var p := Target(es, names[0]); next == es[p := es[p].(amount := EnergyAmount(es[p].unit, mixes[0], intensity).value)]
    requires forall k :: 1 <= k < |names| ==> Matching(next, names[k]) == Matching(es, names[k])
    requires OneToOne(next, names[1..])
    requires Converted(next, after, names[1..], mixes[1..], intensity)
    requires forall p :: 0 <= p < |next| && Untouched(next, names[1..], p) ==> after[p] == next[p]
    ensures Converted(es, after, names, mixes, intensity)
    ensures forall p :: 0 <= p < |es| && Untouched(es, names, p) ==> after[p] == es[p]
  {
    var p := Target(es, names[0]);
    forall k | 0 <= k < |names| - 1 ensures names[1..][k] == names[k + 1] && mixes[1..][k] == mixes[k + 1] {
    }
    assert Untouched(next, names[1..], p);
    forall k | 1 <= k < |names|
      ensures after[Target(es, names[k])].amount == EnergyAmount(es[Target(es, names[k])].unit, mixes[k], intensity).value
    {
      assert Target(next, names[1..][k - 1]) == Target(es, names[k]);
    }
    forall q | 0 <= q < |es| && Untouched(es, names, q) ensures after[q] == es[q] {
      assert Target(es, names[0]) != q;
      assert Untouched(next, names[1..], q);
    }
  }


  /** For the first process, when the first name does not find exactly one
      exchange, `energy_exc` is read unbound: NameError, with nothing updated. */
  lemma FirstNameUnbound(es: seq<Input>, names: seq<string>, mixes: seq<real>, intensity: real)
    requires |names| == |mixes| && |names| > 0 && |Matching(es, names[0])| != 1
    ensures AluminaEnergy(es, names, mixes, intensity, Unbound) == EnergyUpdate(Failure(NameError), es, None, Unbound)
  {
  }

  /** A value of the IAI electricity table: a number, or "ND" (not disclosed). */
  datatype Reported = Value(value: real) | NotDisclosed

  /** `elec_input_amount / 10**3`: the IAI electricity intensity of the
      region, or of the world when the region's is "ND", per kg instead of
      per tonne; `float("ND")` raises ValueError when both are. */
  function ElectricityInput(regional: Reported, world: Reported): (r: Result<real>)
    ensures r.Failure? <==> regional.NotDisclosed? && world.NotDisclosed?
    ensures r.Failure? ==> r.error == ValueError
    ensures r.Success? && regional.Value? ==> r.value * 1000.0 == regional.value
    ensures r.Success? && regional.NotDisclosed? ==> r.value * 1000.0 == world.value
  {
    var v := if regional.NotDisclosed? then world else regional;
    match v
    case NotDisclosed => Failure(ValueError)
    case Value(x) => Success(x / 1000.0)
  }

  /** `dbUpdate_ElecAluLiq` on one smelter: the first exchange whose input
      name contains "electricity" gets the electricity input. */
  function ElectricityUpdate(es: seq<Input>, regional: Reported, world: Reported): (r: Result<seq<Input>>)
    ensures r.Success? ==> SameInputs(es, r.value)
  {
    match ElectricityInput(regional, world)
    case Failure(e) => Failure(e)
    case Success(v) =>
      var matches := Matching(es, "electricity");
      if |matches| == 0 then Failure(IndexError)
      else Success(es[matches[0] := es[matches[0]].(amount := v)])
  }

  /** The update fails with IndexError exactly when no input is electricity,
      and otherwise changes the amount of the first electricity input only. */
  lemma ElectricityTarget(es: seq<Input>, regional: Reported, world: Reported)
    requires ElectricityInput(regional, world).Success?
    ensures ElectricityUpdate(es, regional, world).Failure? <==>
      forall j :: 0 <= j < |es| ==> !ContainsSubstring(es[j].name, "electricity")
    ensures ElectricityUpdate(es, regional, world).Failure? ==> ElectricityUpdate(es, regional, world).error == IndexError
    ensures ElectricityUpdate(es, regional, world).Success? ==>
      exists p :: 0 <= p < |es| && ContainsSubstring(es[p].name, "electricity")
        && (forall j :: 0 <= j < p ==> !ContainsSubstring(es[j].name, "electricity"))
        && ElectricityUpdate(es, regional, world).value == es[p := es[p].(amount := ElectricityInput(regional, world).value)]
  {
    MatchingComplete(es, "electricity");
    if |Matching(es, "electricity")| > 0 {
      MatchingFirst(es, "electricity");
    }
  }


  /** A production process whose exchanges are updated in place. */
  class Process {
    var inputs: seq<Input>

    constructor (inputs: seq<Input>)
      ensures this.inputs == inputs
    {
      this.inputs := inputs;
    }

    /** `dbUpdate_EnerAlumina` for one alumina production process of a
        country with an alumina region, starting from what the loop
        variables hold (`Unbound` for the first process). It returns the
        exception or whether the warning about energy mixes adding up to
        less than 0.99 is logged, the amount it wrote into an earlier
        process's exchange, and what the variables hold afterwards. */
    method UpdateAluminaEnergy(names: seq<string>, mixes: seq<real>, intensity: real, carry: Carry)
      returns (r: Result<bool>, earlier: Option<real>, next: Carry)
      requires |names| == |mixes|
      modifies this
      ensures EnergyUpdate(r, inputs, earlier, next) == AluminaEnergy(old(inputs), names, mixes, intensity, carry)
    {
      ghost var start := Start(inputs, carry);
      var s := Start(inputs, carry);
      for k := 0 to |names|
        invariant ValidState(s) && inputs == s.inputs
        invariant RunEnergy(start, names, mixes, intensity) == RunEnergy(s, names[k..], mixes[k..], intensity)
      {
        var step := EnergyIteration(s, names[k], mixes[k], intensity);
        if step.Failure? {
          RunFails(s, names, mixes, intensity, k);
          return Failure(step.error), s.earlier, CarryOut(s);
        }
        RunContinues(s, names, mixes, intensity, k, step.value);
        s := step.value;
        inputs := s.inputs;
      }
      return Success(s.total < 0.99), s.earlier, CarryOut(s);
    }

    /** `dbUpdate_ElecAluLiq` for one smelter. */
    method UpdateElectricity(regional: Reported, world: Reported) returns (r: Result<()>)
      modifies this
      ensures ElectricityUpdate(old(inputs), regional, world).Failure? ==>
        r == Failure(ElectricityUpdate(old(inputs), regional, world).error) && inputs == old(inputs)
      ensures ElectricityUpdate(old(inputs), regional, world).Success? ==>
        r.Success? && inputs == ElectricityUpdate(old(inputs), regional, world).value
    {
      var v := ElectricityInput(regional, world);
      if v.Failure? {
        return Failure(v.error);
      }
      var k := 0;
      while k < |inputs| && !ContainsSubstring(inputs[k].name, "electricity")
        invariant 0 <= k <= |inputs|
        invariant forall j :: 0 <= j < k ==> !ContainsSubstring(inputs[j].name, "electricity")
      {
        k := k + 1;
      }
      ghost var matches := Matching(inputs, "electricity");
      if k == |inputs| {
        assert |matches| == 0;
        return Failure(IndexError);
      }
      MatchingComplete(inputs, "electricity");
      assert k in matches;
      MatchingFirst(inputs, "electricity");
      assert matches[0] == k;
      inputs := inputs[k := inputs[k].(amount := v.value)];
      return Success(());
    }
  }

  // ---------------------------------------------------------------------------
  // Producer and spatial indices (`get_embodied_impacts`)

  /** `index_producer` of a producing country: its row in the country
      correspondence. Two rows carry the code of Montenegro (Serbia and
      Montenegro, then Montenegro): the second is used before 2006, the first
      from 2006. Any other number of rows than one or two makes the
      assignment of the index array fail. */
  function ProducerIndex(codes: seq<Option<string>>, country: string, year: int): (r: Result<nat>)
    ensures r.Success? <==> 1 <= |Positions(codes, Some(country))| <= 2
    ensures r.Failure? ==> r.error == ValueError
    ensures r.Success? ==> r.value < |codes| && codes[r.value] == Some(country)
  {
    var rows := Positions(codes, Some(country));
    if |rows| == 2 then Success(if year < 2006 then rows[1] else rows[0])
    else if |rows| == 1 then Success(rows[0])
    else Failure(ValueError)
  }

  /** `index_imp` of a country of the spatial distribution: of two rows, always the first. */
  function SpatialIndex(codes: seq<Option<string>>, country: string): (r: Result<nat>)
    ensures r.Success? <==> 1 <= |Positions(codes, Some(country))| <= 2
    ensures r.Failure? ==> r.error == ValueError
    ensures r.Success? ==> r.value < |codes| && codes[r.value] == Some(country)
  {
    var rows := Positions(codes, Some(country));
    if 1 <= |rows| <= 2 then Success(rows[0]) else Failure(ValueError)
  }

  /** The spatial index is the first row of the country; from 2006 the
      producer index agrees with it, before 2006 it is the last row. */
  lemma IndexTieBreak(codes: seq<Option<string>>, country: string, year: int)
    ensures SpatialIndex(codes, country).Success? ==>
      SpatialIndex(codes, country).value == IndexOf(codes, Some(country)).value
    ensures year >= 2006 ==> ProducerIndex(codes, country, year) == SpatialIndex(codes, country)
    ensures year < 2006 && ProducerIndex(codes, country, year).Success? ==>
      Some(country) !in codes[ProducerIndex(codes, country, year).value + 1..]
  {
    var rows := Positions(codes, Some(country));
    if 1 <= |rows| <= 2 {
      PositionsEnds(codes, Some(country));
      var first := IndexOf(codes, Some(country)).value;
      assert codes[rows[0]] == Some(country);
      assert rows[0] == first;
      var last := rows[|rows| - 1];
      assert forall q :: last < q < |codes| ==> codes[q] != Some(country);
      assert Some(country) !in codes[last + 1..];
    }
  }

}
