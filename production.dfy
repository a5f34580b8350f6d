/** The production matrix of a mineral for one year (`get_mat_prod`): a
    diagonal matrix over the country registry whose entry (c, c) is country c's
    production, read in thousand tonnes and scaled by 10^6. */
module Production {
  import opened Common
  import opened Matrices

  /** One row of a production file: country name, year and value (thousand
      tonnes), the value possibly missing. */
  datatype ProductionRecord = ProductionRecord(country: string, year: int, value: Option<real>)

  /** The scale applied to the file's figures, `pow(10, 6)`. */
  const SCALE: real := 1000000.0

  /** `fillna(0)` on the value column. */
  function Weight(r: ProductionRecord): real
  {
    if r.value.Some? then r.value.value else 0.0
  }

  /** True when some record of the year names a country absent from the registry. */
  predicate UnknownProducer(names: seq<string>, records: seq<ProductionRecord>, year: int)
  {
    exists k :: 0 <= k < |records| && records[k].year == year && records[k].country !in names
  }

  /** What the file says country c produced in the year: the sum of the weights
      of that year's records whose name is first registered at position c. */
  function YearProduction(names: seq<string>, records: seq<ProductionRecord>, year: int, c: nat): real
  {
    if |records| == 0 then 0.0
    else
      var r := records[|records| - 1];
      YearProduction(names, records[..|records| - 1], year, c)
      + (if r.year == year && IndexOf(names, r.country) == Some(c) then Weight(r) else 0.0)
  }

  /** get_mat_prod: the loop that finds every producer's registry index, then
      the diagonal sparse matrix of the weights, scaled. A name missing from the
      registry raises IndexError. */
  method ProductionMatrix(names: seq<string>, records: seq<ProductionRecord>, year: int) returns (r: Result<Matrix>)
    ensures r.Failure? <==> UnknownProducer(names, records, year)
    ensures r.Failure? ==> r.error == IndexError
    ensures r.Success? ==> IsSquare(r.value, |names|) && IsDiagonal(r.value)
    ensures r.Success? ==> forall c :: 0 <= c < |names| ==> r.value[c][c] == SCALE * YearProduction(names, records, year, c)
  {
    var n := |names|;
    var producers: seq<nat> := [];
    var weights: seq<real> := [];
    var k := 0;
    while k < |records|
      invariant 0 <= k <= |records|
      invariant |producers| == |weights|
      invariant forall q :: 0 <= q < |producers| ==> producers[q] < n
      invariant !UnknownProducer(names, records[..k], year)
      invariant forall c :: 0 <= c < n ==>
        YearProduction(names, records[..k], year, c) == ProducerSum(producers, weights, c)
    {
      assert records[..k + 1][..k] == records[..k];
      var rec := records[k];
      if rec.year == year {
        var index := IndexOf(names, rec.country);
        if index.None? {
          assert records[..k + 1][k] == rec;
          UnknownPrefix(names, records, year, k + 1);
          return Failure(IndexError);
        }
        var producers' := producers + [index.value];
        var weights' := weights + [Weight(rec)];
        assert producers'[..|producers|] == producers && weights'[..|weights|] == weights;
        producers, weights := producers', weights';
      }
      k := k + 1;
    }
    assert records[..k] == records;
    var m := seq(n, i requires 0 <= i < n => seq(n, j requires 0 <= j < n =>
      if i == j then SCALE * ProducerSum(producers, weights, i) else 0.0));
    r := Success(m);
  }

  /** The weights whose producer index is c, summed, as the sparse constructor adds duplicates. */
  function ProducerSum(producers: seq<nat>, weights: seq<real>, c: nat): real
    requires |producers| == |weights|
  {
    if |producers| == 0 then 0.0
    else ProducerSum(producers[..|producers| - 1], weights[..|weights| - 1], c)
         + (if producers[|producers| - 1] == c then weights[|weights| - 1] else 0.0)
  }

  lemma UnknownPrefix(names: seq<string>, records: seq<ProductionRecord>, year: int, k: nat)
    requires k <= |records| && UnknownProducer(names, records[..k], year)
    ensures UnknownProducer(names, records, year)
  {
    var q :| 0 <= q < k && records[..k][q].year == year && records[..k][q].country !in names;
    assert records[q] == records[..k][q];
  }

  /** The production of all countries adds up to the year's registered records:
      every unit of mass in the file is attributed to exactly one country. */
  lemma {:induction false} ProductionPartition(names: seq<string>, records: seq<ProductionRecord>, year: int)
    requires !UnknownProducer(names, records, year)
    ensures Sum(seq(|names|, c requires 0 <= c < |names| => YearProduction(names, records, year, c)))
         == YearTotal(records, year)
  {
    var n := |names|;
    var v := seq(n, c requires 0 <= c < n => YearProduction(names, records, year, c));
    if |records| == 0 {
      SumZero(v);
    } else {
      var init := records[..|records| - 1];
      var r := records[|records| - 1];
      ProductionPartition(names, init, year);
      var u := seq(n, c requires 0 <= c < n => YearProduction(names, init, year, c));
      if r.year == year {
        assert r.country in names by {
          assert records[|records| - 1] == r;
        }
        var c0 := IndexOf(names, r.country).value;
        assert v == u[c0 := u[c0] + Weight(r)];
        SumUpdate(u, c0, u[c0] + Weight(r));
      } else {
        assert v == u;
      }
    }
  }

  /** The total weight of the records of the year. */
  function YearTotal(records: seq<ProductionRecord>, year: int): real
  {
    if |records| == 0 then 0.0
    else YearTotal(records[..|records| - 1], year)
         + (if records[|records| - 1].year == year then Weight(records[|records| - 1]) else 0.0)
  }
}
