/** The bilateral trade matrix of one commodity and year, importer × exporter,
    built from UN Comtrade records either as reported by one side
    (`get_mat_trad_raw`) or reconciled between the import and the export
    reports with the Gehlhar reliability method (`get_mat_trad_reconciliation`).
    Rows are importers, columns exporters: `M[i][j]` is the mass country i
    imported from country j. */
module TradeMatrices {
  import opened Common
  import opened Matrices

  /** One row of a Comtrade query result: reporter code (`rtCode`), partner code
      (`ptCode`), flow code (`rgCode`, 1 import, 2 export), quantity code
      (`qtCode`) and net weight, which may be missing. */
  datatype TradeRecord = TradeRecord(reporter: int, partner: int, flow: int, quantityCode: int, netWeight: Option<real>)

  /** A reported flow once oriented: the importer's code, the exporter's code, the mass. */
  datatype Flow = Flow(importer: int, exporter: int, mass: real)

  /** One row of the transaction table: a flow as reported by its importer and by its exporter. */
  datatype Transaction = Transaction(importer: int, exporter: int, reportedImports: real, reportedExports: real)

  /** One stored entry of a sparse matrix in coordinate form. */
  datatype Cell = Cell(row: nat, col: nat, value: real)

  /** The two roles in which a country reports trade. */
  datatype Role = AsImporter | AsExporter

  const WORLD: int := 0
  const IMPORTS: int := 1
  const EXPORTS: int := 2
  const KILOGRAMS: int := 8
  const ACCURACY_THRESHOLD: real := 0.2

  // ---------------------------------------------------------------------------
  // Sparse assembly: `csc_matrix((values, (rows, cols)), shape=(n, n))`, where
  // entries given twice for the same position are added.

  /** The sum of the values of the cells stored at (i, j). */
  function CellSum(cells: seq<Cell>, i: nat, j: nat): real
  {
    if |cells| == 0 then 0.0
    else CellSum(cells[..|cells| - 1], i, j)
         + (var c := cells[|cells| - 1]; if c.row == i && c.col == j then c.value else 0.0)
  }

  function CellValues(cells: seq<Cell>): (v: Vector)
    ensures |v| == |cells| && forall k :: 0 <= k < |cells| ==> v[k] == cells[k].value
  {
    seq(|cells|, k requires 0 <= k < |cells| => cells[k].value)
  }

  predicate CellsWithin(cells: seq<Cell>, n: nat)
  {
    forall k :: 0 <= k < |cells| ==> cells[k].row < n && cells[k].col < n
  }

  function Assemble(n: nat, cells: seq<Cell>): (m: Matrix)
    ensures IsSquare(m, n)
  {
    seq(n, i requires 0 <= i => seq(n, j requires 0 <= j => CellSum(cells, i, j)))
  }

  /** Assembly loses no mass and invents none: the grand total of the matrix is
      the sum of the values of its cells. */
  lemma {:induction false} AssembleTotal(n: nat, cells: seq<Cell>)
    requires CellsWithin(cells, n)
    ensures Total(Assemble(n, cells)) == Sum(CellValues(cells))
  {
    if |cells| == 0 {
      var m := Assemble(n, cells);
      forall i | 0 <= i < n ensures Sum(m[i]) == 0.0 {
        SumZero(m[i]);
      }
      SumZero(RowSums(m));
    } else {
      var k := |cells| - 1;
      AssembleTotal(n, cells[..k]);
      AssembleStep(n, cells[..k], cells[k]);
      assert cells[..k] + [cells[k]] == cells;
      assert CellValues(cells)[..k] == CellValues(cells[..k]);
    }
  }

  /** One more cell adds its value to the grand total. */
  lemma AssembleStep(n: nat, init: seq<Cell>, x: Cell)
    requires x.row < n && x.col < n
    ensures Total(Assemble(n, init + [x])) == Total(Assemble(n, init)) + x.value
  {
    var cells := init + [x];
    assert cells[..|init|] == init;
    var m := Assemble(n, cells);
    var old_m := Assemble(n, init);
    forall i | 0 <= i < n && i != x.row ensures m[i] == old_m[i] {
      assert forall j :: 0 <= j < n ==> m[i][j] == old_m[i][j];
    }
    var newRow := old_m[x.row][x.col := old_m[x.row][x.col] + x.value];
    assert m[x.row] == newRow;
    SumUpdate(old_m[x.row], x.col, old_m[x.row][x.col] + x.value);
    assert RowSums(m) == RowSums(old_m)[x.row := Sum(newRow)];
    SumUpdate(RowSums(old_m), x.row, Sum(newRow));
  }

  /** `registry[registry["ctyCode"] == code].index[0]` for both ends of every flow:
      the first registry position of each code, or IndexError when one is absent. */
  function Locate(registry: seq<int>, flows: seq<Flow>): (r: Result<seq<Cell>>)
    ensures r.Failure? <==> exists k :: 0 <= k < |flows| && (flows[k].importer !in registry || flows[k].exporter !in registry)
    ensures r.Failure? ==> r.error == IndexError
    ensures r.Success? ==> |r.value| == |flows| && CellsWithin(r.value, |registry|)
    ensures r.Success? ==> forall k :: 0 <= k < |flows| ==>
      r.value[k] == Cell(IndexOf(registry, flows[k].importer).value, IndexOf(registry, flows[k].exporter).value, flows[k].mass)
  {
    if |flows| == 0 then Success([])
    else
      var f := flows[|flows| - 1];
      match Locate(registry, flows[..|flows| - 1])
      case Failure(e) => Failure(e)
      case Success(cells) =>
        match (IndexOf(registry, f.importer), IndexOf(registry, f.exporter))
        case (Some(i), Some(j)) => Success(cells + [Cell(i, j, f.mass)])
        case _ => Failure(IndexError)
  }

  function FlowMasses(flows: seq<Flow>): (v: Vector)
    ensures |v| == |flows| && forall k :: 0 <= k < |flows| ==> v[k] == flows[k].mass
  {
    seq(|flows|, k requires 0 <= k < |flows| => flows[k].mass)
  }

  /** The importer × exporter matrix of a list of flows over the registry. */
  function FlowMatrix(registry: seq<int>, flows: seq<Flow>): (r: Result<Matrix>)
    ensures r.Success? ==> IsSquare(r.value, |registry|)
  {
    match Locate(registry, flows)
    case Failure(e) => Failure(e)
    case Success(cells) => Success(Assemble(|registry|, cells))
  }

  /** A flow matrix holds exactly the mass of its flows, and its entry (i, j)
      adds every flow whose importer is first registered at i and whose exporter
      is first registered at j. */
  lemma FlowMatrixContents(registry: seq<int>, flows: seq<Flow>)
    requires FlowMatrix(registry, flows).Success?
    ensures Total(FlowMatrix(registry, flows).value) == Sum(FlowMasses(flows))
    ensures forall i, j :: 0 <= i < |registry| && 0 <= j < |registry| ==>
      FlowMatrix(registry, flows).value[i][j] == CellSum(Locate(registry, flows).value, i, j)
  {
    var cells := Locate(registry, flows).value;
    AssembleTotal(|registry|, cells);
    assert CellValues(cells) == FlowMasses(flows);
  }

  // ---------------------------------------------------------------------------
  // Filtering and orienting records: a boolean mask over the query result,
  // then the reporter and partner columns taken as importer and exporter.

  /** The net weight of a record; only read for records whose weight is present. */
  function Weight(rec: TradeRecord): real
  {
    if rec.netWeight.Some? then rec.netWeight.value else 0.0
  }

  /** The reporter is the importer. */
  function ImportSide(rec: TradeRecord): Flow
  {
    Flow(rec.reporter, rec.partner, Weight(rec))
  }

  /** The reporter is the exporter, the partner the importer. */
  function ExportSide(rec: TradeRecord): Flow
  {
    Flow(rec.partner, rec.reporter, Weight(rec))
  }

  /** The records that pass `keep`, each oriented by `orient`, in record order. */
  function Select(records: seq<TradeRecord>, keep: TradeRecord -> bool, orient: TradeRecord -> Flow): (flows: seq<Flow>)
    ensures |flows| <= |records|
  {
    if |records| == 0 then []
    else
      var rec := records[|records| - 1];
      Select(records[..|records| - 1], keep, orient) + (if keep(rec) then [orient(rec)] else [])
  }

  /** The number of records that pass `keep`. */
  function Count(records: seq<TradeRecord>, keep: TradeRecord -> bool): nat
  {
    if |records| == 0 then 0
    else Count(records[..|records| - 1], keep) + (if keep(records[|records| - 1]) then 1 else 0)
  }

  /** Selection keeps record order: selecting from two batches one after the
      other is selecting from their concatenation. */
  lemma {:induction false} SelectAppend(a: seq<TradeRecord>, b: seq<TradeRecord>, keep: TradeRecord -> bool, orient: TradeRecord -> Flow)
    ensures Select(a + b, keep, orient) == Select(a, keep, orient) + Select(b, keep, orient)
    decreases |b|
  {
    if |b| == 0 {
      assert a + b == a;
    } else {
      var init := b[..|b| - 1];
      SelectAppend(a, init, keep, orient);
      assert (a + b)[..|a + b| - 1] == a + init;
    }
  }

  /** Selection yields one flow per kept record and nothing else: the flows are
      exactly the oriented kept records, as many as there are kept records. */
  lemma {:induction false} SelectExact(records: seq<TradeRecord>, keep: TradeRecord -> bool, orient: TradeRecord -> Flow)
    ensures |Select(records, keep, orient)| == Count(records, keep)
    ensures forall f :: f in Select(records, keep, orient) <==> exists rec :: rec in records && keep(rec) && f == orient(rec)
  {
    if |records| > 0 {
      var init := records[..|records| - 1];
      var last := records[|records| - 1];
      SelectExact(init, keep, orient);
      assert records == init + [last];
      forall f ensures f in Select(records, keep, orient) <==> exists rec :: rec in records && keep(rec) && f == orient(rec)
      {
        if f in Select(init, keep, orient) {
          var rec :| rec in init && keep(rec) && f == orient(rec);
          assert rec in records;
        }
        if exists rec :: rec in records && keep(rec) && f == orient(rec) {
          var rec :| rec in records && keep(rec) && f == orient(rec);
          if rec != last {
            assert rec in init;
          }
        }
      }
    }
  }

  // ---------------------------------------------------------------------------
  // get_mat_trad_raw: one side's reports only

  /** The filters of the raw builder: no world partner, kilograms only, a net
      weight present, no re-import from oneself. */
  predicate KeptRaw(r: TradeRecord)
  {
    r.partner != WORLD && r.quantityCode == KILOGRAMS && r.netWeight.Some? && r.reporter != r.partner
  }

  /** The kept records oriented by the trade type of the query: for imports the
      reporter is the importer, for exports the reporter is the exporter. Any
      other trade type leaves the index columns unset (KeyError). */
  function RawFlows(records: seq<TradeRecord>, tradeType: int): (r: Result<seq<Flow>>)
    ensures r.Success? <==> tradeType == IMPORTS || tradeType == EXPORTS
  {
    if tradeType == IMPORTS then Success(Select(records, KeptRaw, ImportSide))
    else if tradeType == EXPORTS then Success(Select(records, KeptRaw, ExportSide))
    else Failure(KeyError)
  }

  /** The raw flows are exactly the kept records, one flow each, oriented by
      the trade type; none has the same country at both ends. */
  lemma RawFlowsExact(records: seq<TradeRecord>, tradeType: int)
    requires tradeType == IMPORTS || tradeType == EXPORTS
    ensures |RawFlows(records, tradeType).value| == Count(records, KeptRaw)
    ensures forall f :: f in RawFlows(records, tradeType).value <==>
      exists rec :: rec in records && KeptRaw(rec) &&
        f == (if tradeType == IMPORTS then Flow(rec.reporter, rec.partner, rec.netWeight.value)
              else Flow(rec.partner, rec.reporter, rec.netWeight.value))
    ensures forall f :: f in RawFlows(records, tradeType).value ==> f.importer != f.exporter
  {
    var orient := if tradeType == IMPORTS then ImportSide else ExportSide;
    assert RawFlows(records, tradeType).value == Select(records, KeptRaw, orient);
    SelectExact(records, KeptRaw, orient);
  }

  /** Raw flows come in record order: the flows of two batches are the flows of
      the first followed by those of the second. */
  lemma RawFlowsInOrder(a: seq<TradeRecord>, b: seq<TradeRecord>, tradeType: int)
    requires tradeType == IMPORTS || tradeType == EXPORTS
    ensures RawFlows(a + b, tradeType).value == RawFlows(a, tradeType).value + RawFlows(b, tradeType).value
  {
    SelectAppend(a, b, KeptRaw, if tradeType == IMPORTS then ImportSide else ExportSide);
  }

  /** The raw matrix of one commodity code. */
  function RawCommodityMatrix(registry: seq<int>, records: seq<TradeRecord>, tradeType: int): (r: Result<Matrix>)
    ensures r.Success? ==> IsSquare(r.value, |registry|)
  {
    match RawFlows(records, tradeType)
    case Failure(e) => Failure(e)
    case Success(flows) => FlowMatrix(registry, flows)
  }

  // ---------------------------------------------------------------------------
  // get_mat_trad_reconciliation, steps 1 and 2: filter and split

  /** Step 1 filters: no self-trade, flow code 1 or 2, no world partner, a net weight present. */
  predicate KeptForReconciliation(r: TradeRecord)
  {
    r.reporter != r.partner && (r.flow == IMPORTS || r.flow == EXPORTS) && r.partner != WORLD && r.netWeight.Some?
  }

  predicate IsImportReport(r: TradeRecord)
  {
    KeptForReconciliation(r) && r.flow == IMPORTS
  }

  predicate IsExportReport(r: TradeRecord)
  {
    KeptForReconciliation(r) && r.flow == EXPORTS
  }

  /** The import-side view: the reporter is the importer. */
  function ImportReports(records: seq<TradeRecord>): (flows: seq<Flow>)
    ensures |flows| <= |records|
  {
    Select(records, IsImportReport, ImportSide)
  }

  /** The export-side view: the reporter is the exporter, the partner the importer. */
  function ExportReports(records: seq<TradeRecord>): (flows: seq<Flow>)
    ensures |flows| <= |records|
  {
    Select(records, IsExportReport, ExportSide)
  }

  /** The import view holds exactly one flow per kept import report, its
      reporter as importer. */
  lemma ImportReportsExact(records: seq<TradeRecord>)
    ensures |ImportReports(records)| == Count(records, IsImportReport)
    ensures forall f :: f in ImportReports(records) <==>
      exists rec :: rec in records && KeptForReconciliation(rec) && rec.flow == IMPORTS &&
        f == Flow(rec.reporter, rec.partner, rec.netWeight.value)
  {
    SelectExact(records, IsImportReport, ImportSide);
  }

  /** The import view keeps record order across batches. */
  lemma ImportReportsInOrder(a: seq<TradeRecord>, b: seq<TradeRecord>)
    ensures ImportReports(a + b) == ImportReports(a) + ImportReports(b)
  {
    SelectAppend(a, b, IsImportReport, ImportSide);
  }

  /** The export view holds exactly one flow per kept export report, its
      reporter as exporter and its partner as importer. */
  lemma ExportReportsExact(records: seq<TradeRecord>)
    ensures |ExportReports(records)| == Count(records, IsExportReport)
    ensures forall f :: f in ExportReports(records) <==>
      exists rec :: rec in records && KeptForReconciliation(rec) && rec.flow == EXPORTS &&
        f == Flow(rec.partner, rec.reporter, rec.netWeight.value)
  {
    SelectExact(records, IsExportReport, ExportSide);
  }

  /** The export view keeps record order across batches. */
  lemma ExportReportsInOrder(a: seq<TradeRecord>, b: seq<TradeRecord>)
    ensures ExportReports(a + b) == ExportReports(a) + ExportReports(b)
  {
    SelectAppend(a, b, IsExportReport, ExportSide);
  }

  // ---------------------------------------------------------------------------
  // Step 2: merge the two views into one transaction table

  /** The table before any export report: the import rows with 0 reported exports. */
  function InitialTable(imports: seq<Flow>): (rows: seq<Transaction>)
    ensures |rows| == |imports|
  {
    seq(|imports|, k requires 0 <= k < |imports| => Transaction(imports[k].importer, imports[k].exporter, imports[k].mass, 0.0))
  }

  predicate HasPair(rows: seq<Transaction>, importer: int, exporter: int)
  {
    exists k :: 0 <= k < |rows| && rows[k].importer == importer && rows[k].exporter == exporter
  }

  /** Every row of the pair takes the reported export (a `.loc` assignment on a mask). */
  function SetReportedExports(rows: seq<Transaction>, importer: int, exporter: int, mass: real): (r: seq<Transaction>)
    ensures |r| == |rows|
  {
    seq(|rows|, k requires 0 <= k < |rows| =>
      if rows[k].importer == importer && rows[k].exporter == exporter then rows[k].(reportedExports := mass) else rows[k])
  }

  /** One export report: update the rows of its pair if there are any, else
      append a row with no reported import (NaN, then set to 0). */
  function MergeExport(rows: seq<Transaction>, x: Flow): seq<Transaction>
  {
    if HasPair(rows, x.importer, x.exporter) then SetReportedExports(rows, x.importer, x.exporter, x.mass)
    else rows + [Transaction(x.importer, x.exporter, 0.0, x.mass)]
  }

  /** The transaction table after the export reports have been merged in order. */
  function Merge(imports: seq<Flow>, exports: seq<Flow>): seq<Transaction>
  {
    if |exports| == 0 then InitialTable(imports)
    else MergeExport(Merge(imports, exports[..|exports| - 1]), exports[|exports| - 1])
  }

  /** The last export report for a pair, or 0 when the pair has none. */
  function LastExportReport(exports: seq<Flow>, importer: int, exporter: int): real
  {
    if |exports| == 0 then 0.0
    else if exports[|exports| - 1].importer == importer && exports[|exports| - 1].exporter == exporter then exports[|exports| - 1].mass
    else LastExportReport(exports[..|exports| - 1], importer, exporter)
  }

  predicate Reports(flows: seq<Flow>, importer: int, exporter: int)
  {
    exists t :: 0 <= t < |flows| && flows[t].importer == importer && flows[t].exporter == exporter
  }

  /** One export report keeps the existing rows' pairs and import reports, and
      appends at most one row, for a pair not yet in the table. */
  lemma MergeExportStep(prev: seq<Transaction>, x: Flow)
    ensures var rows := MergeExport(prev, x);
      && |prev| <= |rows| <= |prev| + 1
      && (forall k :: 0 <= k < |prev| ==>
            rows[k].importer == prev[k].importer && rows[k].exporter == prev[k].exporter
            && rows[k].reportedImports == prev[k].reportedImports)
      && (|rows| == |prev| + 1 ==>
            rows[|prev|] == Transaction(x.importer, x.exporter, 0.0, x.mass) && !HasPair(prev, x.importer, x.exporter))
      && HasPair(rows, x.importer, x.exporter)
  {
    var rows := MergeExport(prev, x);
    if HasPair(prev, x.importer, x.exporter) {
      var k :| 0 <= k < |prev| && prev[k].importer == x.importer && prev[k].exporter == x.exporter;
      assert rows[k].importer == x.importer && rows[k].exporter == x.exporter;
    } else {
      assert rows[|prev|].importer == x.importer && rows[|prev|].exporter == x.exporter;
    }
  }

  /** The import reports keep their rows, positions and values. */
  lemma {:induction false} MergeKeepsImports(imports: seq<Flow>, exports: seq<Flow>)
    ensures var rows := Merge(imports, exports);
      && |imports| <= |rows|
      && forall k :: 0 <= k < |imports| ==>
           rows[k].importer == imports[k].importer && rows[k].exporter == imports[k].exporter
           && rows[k].reportedImports == imports[k].mass
  {
    if |exports| > 0 {
      var prev := Merge(imports, exports[..|exports| - 1]);
      var rows := Merge(imports, exports);
      MergeKeepsImports(imports, exports[..|exports| - 1]);
      MergeExportStep(prev, exports[|exports| - 1]);
      assert rows == MergeExport(prev, exports[|exports| - 1]);
      forall k | 0 <= k < |imports|
        ensures rows[k].importer == imports[k].importer && rows[k].exporter == imports[k].exporter
        ensures rows[k].reportedImports == imports[k].mass
      {
        assert rows[k].importer == prev[k].importer && rows[k].exporter == prev[k].exporter;
      }
    }
  }

  predicate CarriesLastExports(rows: seq<Transaction>, exports: seq<Flow>)
  {
    forall k :: 0 <= k < |rows| ==> rows[k].reportedExports == LastExportReport(exports, rows[k].importer, rows[k].exporter)
  }

  /** Every row carries the last export report of its pair, or 0 when there is none. */
  lemma {:induction false} MergeExportValues(imports: seq<Flow>, exports: seq<Flow>)
    ensures CarriesLastExports(Merge(imports, exports), exports)
  {
    if |exports| > 0 {
      var prev := Merge(imports, exports[..|exports| - 1]);
      var x := exports[|exports| - 1];
      var rows := Merge(imports, exports);
      MergeExportValues(imports, exports[..|exports| - 1]);
      forall k | 0 <= k < |rows|
        ensures rows[k].reportedExports == LastExportReport(exports, rows[k].importer, rows[k].exporter)
      {
        if k < |prev| {
          if HasPair(prev, x.importer, x.exporter) {
            assert rows[k] == if prev[k].importer == x.importer && prev[k].exporter == x.exporter
              then prev[k].(reportedExports := x.mass) else prev[k];
          } else {
            assert rows[k] == prev[k];
          }
          assert prev[k].reportedExports == LastExportReport(exports[..|exports| - 1], prev[k].importer, prev[k].exporter);
        } else {
          assert rows[k] == Transaction(x.importer, x.exporter, 0.0, x.mass);
        }
      }
    }
  }

  /** Every export report has a row of its pair. */
  lemma {:induction false} MergeCoversExports(imports: seq<Flow>, exports: seq<Flow>)
    ensures forall t :: 0 <= t < |exports| ==> HasPair(Merge(imports, exports), exports[t].importer, exports[t].exporter)
  {
    if |exports| > 0 {
      var n := |exports|;
      var init := exports[..n - 1];
      var prev := Merge(imports, init);
      var rows := Merge(imports, exports);
      MergeCoversExports(imports, init);
      MergeExportStep(prev, exports[n - 1]);
      forall t | 0 <= t < n - 1 ensures HasPair(rows, exports[t].importer, exports[t].exporter) {
        assert exports[t] == init[t];
        var k :| 0 <= k < |prev| && prev[k].importer == init[t].importer && prev[k].exporter == init[t].exporter;
        assert rows[k].importer == prev[k].importer && rows[k].exporter == prev[k].exporter;
      }
    }
  }

  /** The rows after the import rows are the export-only pairs: no import report,
      some export report, 0 reported import, and one row per pair. */
  lemma {:induction false} MergeAppendsExportOnlyPairs(imports: seq<Flow>, exports: seq<Flow>)
    ensures var rows := Merge(imports, exports);
      && |imports| <= |rows|
      && (forall k :: |imports| <= k < |rows| ==>
            rows[k].reportedImports == 0.0 && !Reports(imports, rows[k].importer, rows[k].exporter)
            && Reports(exports, rows[k].importer, rows[k].exporter))
      && (forall k1, k2 :: |imports| <= k1 < k2 < |rows| ==>
            rows[k1].importer != rows[k2].importer || rows[k1].exporter != rows[k2].exporter)
  {
    if |exports| > 0 {
      var n := |exports|;
      var init := exports[..n - 1];
      var x := exports[n - 1];
      var prev := Merge(imports, init);
      var rows := Merge(imports, exports);
      MergeAppendsExportOnlyPairs(imports, init);
      MergeKeepsImports(imports, init);
      MergeExportStep(prev, x);
      forall k | |imports| <= k < |rows|
        ensures rows[k].reportedImports == 0.0 && !Reports(imports, rows[k].importer, rows[k].exporter)
        ensures Reports(exports, rows[k].importer, rows[k].exporter)
      {
        if k < |prev| {
          var t :| 0 <= t < |init| && init[t].importer == prev[k].importer && init[t].exporter == prev[k].exporter;
          assert exports[t] == init[t];
        } else {
          assert exports[n - 1] == x;
        }
      }
      forall k1, k2 | |imports| <= k1 < k2 < |rows|
        ensures rows[k1].importer != rows[k2].importer || rows[k1].exporter != rows[k2].exporter
      {
        if k2 == |prev| {
          assert prev[k1].importer == rows[k1].importer && prev[k1].exporter == rows[k1].exporter;
        }
      }
    }
  }

  /** The merge loop of the source (one pass over the export reports, each either
      updating the rows of its pair or appending a row). */
  method MergeReports(imports: seq<Flow>, exports: seq<Flow>) returns (rows: seq<Transaction>)
    ensures rows == Merge(imports, exports)
  {
    rows := InitialTable(imports);
    for t := 0 to |exports|
      invariant rows == Merge(imports, exports[..t])
    {
      assert exports[..t + 1][..t] == exports[..t];
      var x := exports[t];
      if HasPair(rows, x.importer, x.exporter) {
        rows := SetReportedExports(rows, x.importer, x.exporter, x.mass);
      } else {
        rows := rows + [Transaction(x.importer, x.exporter, 0.0, x.mass)];
      }
    }
    assert exports[..|exports|] == exports;
  }

  // ---------------------------------------------------------------------------
  // Steps 3 to 5: accuracy level, reliability indexes, selection

  /** |imports − exports| / imports, or 1 when the reported import is 0. */
  function AccuracyLevel(t: Transaction): real
  {
    if t.reportedImports != 0.0 then Abs(t.reportedImports - t.reportedExports) / t.reportedImports else 1.0
  }

  predicate IsAccurate(t: Transaction)
  {
    AccuracyLevel(t) <= ACCURACY_THRESHOLD
  }

  function Reporter(t: Transaction, role: Role): int
  {
    if role == AsImporter then t.importer else t.exporter
  }

  function Reported(t: Transaction, role: Role): real
  {
    if role == AsImporter then t.reportedImports else t.reportedExports
  }

  /** The mass country c reported in a role, over all rows or over the accurate rows only. */
  function RoleTotal(rows: seq<Transaction>, c: int, role: Role, accurateOnly: bool): real
  {
    if |rows| == 0 then 0.0
    else
      var t := rows[|rows| - 1];
      RoleTotal(rows[..|rows| - 1], c, role, accurateOnly)
      + (if Reporter(t, role) == c && (!accurateOnly || IsAccurate(t)) then Reported(t, role) else 0.0)
  }

  /** 100 × accurate mass / total mass for the role, and 0 where pandas produces NaN (0/0). */
  function Reliability(rows: seq<Transaction>, c: int, role: Role): real
  {
    var total := RoleTotal(rows, c, role, false);
    if total == 0.0 then 0.0 else 100.0 * RoleTotal(rows, c, role, true) / total
  }

  predicate NonNegativeReports(rows: seq<Transaction>)
  {
    forall k :: 0 <= k < |rows| ==> rows[k].reportedImports >= 0.0 && rows[k].reportedExports >= 0.0
  }

  lemma {:induction false} AccurateWithinTotal(rows: seq<Transaction>, c: int, role: Role)
    requires NonNegativeReports(rows)
    ensures 0.0 <= RoleTotal(rows, c, role, true) <= RoleTotal(rows, c, role, false)
  {
    if |rows| > 0 {
      AccurateWithinTotal(rows[..|rows| - 1], c, role);
    }
  }

  /** With non-negative reported masses every reliability index lies in [0, 100]. */
  lemma ReliabilityBounds(rows: seq<Transaction>, c: int, role: Role)
    requires NonNegativeReports(rows)
    ensures 0.0 <= Reliability(rows, c, role) <= 100.0
  {
    var total := RoleTotal(rows, c, role, false);
    var accurate := RoleTotal(rows, c, role, true);
    AccurateWithinTotal(rows, c, role);
    if total != 0.0 {
      PercentBounds(accurate, total);
    }
  }

  lemma PercentBounds(part: real, whole: real)
    requires 0.0 <= part <= whole && whole > 0.0
    ensures 0.0 <= 100.0 * part / whole <= 100.0
  {
    var r := 100.0 * part / whole;
    assert r * whole == 100.0 * part;
  }

  /** The reconciled value of a transaction: the import report when the
      importer's index is at least the exporter's, else the export report. */
  function ReconciledValue(rows: seq<Transaction>, t: Transaction): (v: real)
    ensures v == t.reportedImports || v == t.reportedExports
  {
    if Reliability(rows, t.importer, AsImporter) >= Reliability(rows, t.exporter, AsExporter)
    then t.reportedImports else t.reportedExports
  }

  /** An exporter that reported nothing has index 0, so its partners' import
      reports are kept. */
  lemma SilentExporterKeepsImport(rows: seq<Transaction>, t: Transaction)
    requires NonNegativeReports(rows)
    requires RoleTotal(rows, t.exporter, AsExporter, false) == 0.0
    ensures ReconciledValue(rows, t) == t.reportedImports
  {
    ReliabilityBounds(rows, t.importer, AsImporter);
  }

  /** Two reports of one shipment that agree within 20% (100 imported, 90
      exported) make both countries fully reliable, and the import report wins. */
  lemma AgreeingReportsKeepImport(a: int, b: int)
    requires a != b
    ensures var rows := [Transaction(a, b, 100.0, 90.0)];
      && AccuracyLevel(rows[0]) == 0.1
      && Reliability(rows, a, AsImporter) == 100.0
      && Reliability(rows, b, AsExporter) == 100.0
      && ReconciledValue(rows, rows[0]) == 100.0
  {
    var rows := [Transaction(a, b, 100.0, 90.0)];
    assert rows[..0] == [];
    assert Abs(100.0 - 90.0) == 10.0;
    assert AccuracyLevel(rows[0]) == 0.1;
    assert RoleTotal(rows, a, AsImporter, false) == 100.0;
    assert RoleTotal(rows, a, AsImporter, true) == 100.0;
    assert RoleTotal(rows, b, AsExporter, false) == 90.0;
    assert RoleTotal(rows, b, AsExporter, true) == 90.0;
  }

  /** When the exporter's reports are the more reliable, its figure is kept:
      the importer misreports its only shipment while the exporter's other
      shipment matches its partner's report. */
  lemma MoreReliableExporterWins(a: int, b: int, c: int)
    requires a != b && a != c && b != c
    ensures var rows := [Transaction(a, b, 100.0, 50.0), Transaction(c, b, 10.0, 10.0)];
      && Reliability(rows, a, AsImporter) < Reliability(rows, b, AsExporter)
      && ReconciledValue(rows, rows[0]) == 50.0
  {
    var rows := [Transaction(a, b, 100.0, 50.0), Transaction(c, b, 10.0, 10.0)];
    assert rows[..1] == [rows[0]];
    assert rows[..1][..0] == [];
    assert Abs(100.0 - 50.0) == 50.0;
    assert AccuracyLevel(rows[0]) == 0.5;
    assert AccuracyLevel(rows[1]) == 0.0;
    assert RoleTotal(rows[..1], a, AsImporter, false) == 100.0;
    assert RoleTotal(rows, a, AsImporter, false) == 100.0;
    assert RoleTotal(rows[..1], a, AsImporter, true) == 0.0;
    assert RoleTotal(rows, a, AsImporter, true) == 0.0;
    assert RoleTotal(rows[..1], b, AsExporter, false) == 50.0;
    assert RoleTotal(rows, b, AsExporter, false) == 60.0;
    assert RoleTotal(rows[..1], b, AsExporter, true) == 0.0;
    assert RoleTotal(rows, b, AsExporter, true) == 10.0;
    assert Reliability(rows, a, AsImporter) == 0.0;
    assert Reliability(rows, b, AsExporter) == 100.0 * 10.0 / 60.0;
  }

  /** The selection loop of the source, writing `Value` row by row. */
  method SelectValues(rows: seq<Transaction>) returns (values: seq<real>)
    ensures |values| == |rows|
    ensures forall k :: 0 <= k < |rows| ==> values[k] == ReconciledValue(rows, rows[k])
  {
    values := [];
    for k := 0 to |rows|
      invariant |values| == k
      invariant forall q :: 0 <= q < k ==> values[q] == ReconciledValue(rows, rows[q])
    {
      var v;
      if Reliability(rows, rows[k].importer, AsImporter) >= Reliability(rows, rows[k].exporter, AsExporter) {
        v := rows[k].reportedImports;
      } else {
        v := rows[k].reportedExports;
      }
      values := values + [v];
    }
  }

  /** The reconciled flows of a transaction table. */
  function ReconciledFlows(rows: seq<Transaction>): (flows: seq<Flow>)
    ensures |flows| == |rows|
  {
    seq(|rows|, k requires 0 <= k < |rows| => Flow(rows[k].importer, rows[k].exporter, ReconciledValue(rows, rows[k])))
  }

  /** The reconciled matrix of one commodity code. */
  function ReconciledCommodityMatrix(registry: seq<int>, records: seq<TradeRecord>): (r: Result<Matrix>)
    ensures r.Success? ==> IsSquare(r.value, |registry|)
  {
    FlowMatrix(registry, ReconciledFlows(Merge(ImportReports(records), ExportReports(records))))
  }

  /** The reconciled matrix carries one reported figure per transaction: its
      total is the sum over the transaction table of the selected reports. */
  lemma ReconciledMass(registry: seq<int>, records: seq<TradeRecord>)
    requires ReconciledCommodityMatrix(registry, records).Success?
    ensures var rows := Merge(ImportReports(records), ExportReports(records));
      Total(ReconciledCommodityMatrix(registry, records).value)
        == Sum(seq(|rows|, k requires 0 <= k < |rows| => ReconciledValue(rows, rows[k])))
  {
    var rows := Merge(ImportReports(records), ExportReports(records));
    FlowMatrixContents(registry, ReconciledFlows(rows));
    assert FlowMasses(ReconciledFlows(rows)) == seq(|rows|, k requires 0 <= k < |rows| => ReconciledValue(rows, rows[k]));
  }

  // ---------------------------------------------------------------------------
  // Several commodity codes

  /** The error of the first failing code, if any. */
  function FirstError(ms: seq<Result<Matrix>>): (e: Option<Error>)
    ensures e.None? <==> forall k :: 0 <= k < |ms| ==> ms[k].Success?
  {
    if |ms| == 0 then None
    else match FirstError(ms[..|ms| - 1])
      case Some(e) => Some(e)
      case None => if ms[|ms| - 1].Failure? then Some(ms[|ms| - 1].error) else None
  }

  lemma {:induction false} FirstErrorPrefix(ms: seq<Result<Matrix>>, k: nat)
    requires k <= |ms| && FirstError(ms[..k]).Some?
    ensures FirstError(ms) == FirstError(ms[..k])
  {
    if k < |ms| {
      assert ms[..|ms| - 1][..k] == ms[..k];
      FirstErrorPrefix(ms[..|ms| - 1], k);
    } else {
      assert ms[..k] == ms;
    }
  }

  predicate AllSquare(ms: seq<Result<Matrix>>, n: nat)
  {
    forall k :: 0 <= k < |ms| && ms[k].Success? ==> IsSquare(ms[k].value, n)
  }

  /** As the source is written: the accumulation `mat_trad = mat_trad + temp_mat_trad`
      stands after the loop over codes, so only the last code's matrix is kept;
      with no code at all `temp_mat_trad` is never bound (NameError). */
  function CombineAsWritten(n: nat, ms: seq<Result<Matrix>>): (r: Result<Matrix>)
    requires AllSquare(ms, n)
    ensures r.Success? ==> IsSquare(r.value, n)
  {
    match FirstError(ms)
    case Some(e) => Failure(e)
    case None =>
      if |ms| == 0 then Failure(NameError)
      else Success(Add(ZeroMatrix(n, n), ms[|ms| - 1].value, n, n))
  }

  /** As evidently intended: the matrices of all codes are summed. */
  function Combine(n: nat, ms: seq<Result<Matrix>>): (r: Result<Matrix>)
    requires AllSquare(ms, n)
    ensures r.Success? <==> FirstError(ms).None?
    ensures r.Success? ==> IsSquare(r.value, n)
  {
    if |ms| == 0 then Success(ZeroMatrix(n, n))
    else match Combine(n, ms[..|ms| - 1])
      case Failure(e) => Failure(e)
      case Success(acc) =>
        match ms[|ms| - 1]
        case Failure(e) => Failure(e)
        case Success(m) => Success(Add(acc, m, n, n))
  }

  lemma TotalAdd(a: Matrix, b: Matrix, n: nat)
    requires IsSquare(a, n) && IsSquare(b, n)
    ensures Total(Add(a, b, n, n)) == Total(a) + Total(b)
  {
    var c := Add(a, b, n, n);
    forall i | 0 <= i < n ensures Sum(c[i]) == Sum(a[i]) + Sum(b[i]) {
      SumAdd(a[i], b[i], c[i]);
    }
    SumAdd(RowSums(a), RowSums(b), RowSums(c));
  }

  function Totals(ms: seq<Result<Matrix>>): (v: Vector)
    requires forall k :: 0 <= k < |ms| ==> ms[k].Success?
    ensures |v| == |ms|
  {
    seq(|ms|, k requires 0 <= k < |ms| => Total(ms[k].value))
  }

  /** The combined matrix holds the mass of every commodity code: its total is
      the sum of the codes' totals. */
  lemma {:induction false} CombineTotal(n: nat, ms: seq<Result<Matrix>>)
    requires AllSquare(ms, n) && FirstError(ms).None?
    ensures Total(Combine(n, ms).value) == Sum(Totals(ms))
  {
    if |ms| == 0 {
      var z := ZeroMatrix(n, n);
      forall i | 0 <= i < n ensures Sum(z[i]) == 0.0 { SumZero(z[i]); }
      SumZero(RowSums(z));
    } else {
      var init := ms[..|ms| - 1];
      CombineTotal(n, init);
      TotalAdd(Combine(n, init).value, ms[|ms| - 1].value, n);
      assert Totals(ms)[..|ms| - 1] == Totals(init);
    }
  }

  /** The discrepancy: with two codes, each contributing mass 1 and 2 on the only
      pair of a one-country registry, the source keeps 2 where 3 was traded. */
  lemma OnlyLastCodeCounted()
    ensures var ms := [Success([[1.0]]), Success([[2.0]])];
      CombineAsWritten(1, ms) == Success([[2.0]]) && Combine(1, ms) == Success([[3.0]])
  {
    var ms: seq<Result<Matrix>> := [Success([[1.0]]), Success([[2.0]])];
    assert ms[..1] == [Success([[1.0]])];
    assert ms[..1][..0] == [];
    var last := Add(ZeroMatrix(1, 1), [[2.0]], 1, 1);
    assert last[0] == [2.0];
    var first := Add(ZeroMatrix(1, 1), [[1.0]], 1, 1);
    assert first[0] == [1.0];
    var both := Add([[1.0]], [[2.0]], 1, 1);
    assert both[0] == [3.0];
    assert last == [[2.0]] && first == [[1.0]] && both == [[3.0]];
    assert FirstError(ms[..1]) == None;
    assert FirstError(ms) == None;
    assert Combine(1, ms[..1][..0]) == Success(ZeroMatrix(1, 1));
    assert Combine(1, ms[..1]) == Success(first);
  }

  function RawMatrices(registry: seq<int>, perCode: seq<seq<TradeRecord>>, tradeType: int): (ms: seq<Result<Matrix>>)
    ensures |ms| == |perCode| && AllSquare(ms, |registry|)
  {
    seq(|perCode|, k requires 0 <= k < |perCode| => RawCommodityMatrix(registry, perCode[k], tradeType))
  }

  function ReconciledMatrices(registry: seq<int>, perCode: seq<seq<TradeRecord>>): (ms: seq<Result<Matrix>>)
    ensures |ms| == |perCode| && AllSquare(ms, |registry|)
  {
    seq(|perCode|, k requires 0 <= k < |perCode| => ReconciledCommodityMatrix(registry, perCode[k]))
  }

  /** get_mat_trad_raw over the records fetched for each commodity code. It
      succeeds exactly when there is a code and every code's matrix can be
      built; the matrix it returns is then the last code's alone (see
      CombineAsWritten). */
  function RawTradeMatrix(registry: seq<int>, perCode: seq<seq<TradeRecord>>, tradeType: int): (r: Result<Matrix>)
    ensures r.Success? <==> |perCode| > 0 && forall k :: 0 <= k < |perCode| ==> RawCommodityMatrix(registry, perCode[k], tradeType).Success?
    ensures |perCode| > 0 && tradeType != IMPORTS && tradeType != EXPORTS ==> r == Failure(KeyError)
    ensures r.Success? ==> IsSquare(r.value, |registry|)
    ensures r.Success? ==> forall i, j :: 0 <= i < |registry| && 0 <= j < |registry| ==>
      r.value[i][j] == RawCommodityMatrix(registry, perCode[|perCode| - 1], tradeType).value[i][j]
  {
    var ms := RawMatrices(registry, perCode, tradeType);
    assert forall k :: 0 <= k < |perCode| ==> ms[k] == RawCommodityMatrix(registry, perCode[k], tradeType);
    if |perCode| > 0 && ms[0].Failure? then
      FirstErrorIsFirst(ms);
      CombineAsWritten(|registry|, ms)
    else
      CombineAsWritten(|registry|, ms)
  }

  /** The error reported for a list of results is the first one's when it failed. */
  lemma {:induction false} FirstErrorIsFirst(ms: seq<Result<Matrix>>)
    requires |ms| > 0 && ms[0].Failure?
    ensures FirstError(ms) == Some(ms[0].error)
  {
    if |ms| > 1 {
      var init := ms[..|ms| - 1];
      FirstErrorIsFirst(init);
    }
  }

  /** The body of the loop of get_mat_trad_reconciliation for one commodity
      code: its records merged, reconciled, located and assembled. */
  method ReconcileCode(registry: seq<int>, records: seq<TradeRecord>) returns (r: Result<Matrix>)
    ensures r == ReconciledCommodityMatrix(registry, records)
  {
    var imports := ImportReports(records);
    var exports := ExportReports(records);
    var rows := MergeReports(imports, exports);
    var values := SelectValues(rows);
    var flows := seq(|rows|, q requires 0 <= q < |rows| => Flow(rows[q].importer, rows[q].exporter, values[q]));
    assert flows == ReconciledFlows(rows);
    var located := Locate(registry, flows);
    if located.Failure? {
      return Failure(located.error);
    }
    r := Success(Assemble(|registry|, located.value));
  }

  /** get_mat_trad_reconciliation: the loop over commodity codes, each code's
      records merged, reconciled and assembled, and the accumulation after the loop. */
  method ReconcileTrade(registry: seq<int>, perCode: seq<seq<TradeRecord>>) returns (r: Result<Matrix>)
    ensures r == CombineAsWritten(|registry|, ReconciledMatrices(registry, perCode))
  {
    var n := |registry|;
    ghost var ms := ReconciledMatrices(registry, perCode);
    var matTrad := ZeroMatrix(n, n);
    var temp: Option<Matrix> := None;
    for k := 0 to |perCode|
      invariant FirstError(ms[..k]).None?
      invariant temp.None? <==> k == 0
      invariant temp.Some? ==> ms[k - 1] == Success(temp.value)
    {
      assert ms[..k + 1][..k] == ms[..k];
      var reconciled := ReconcileCode(registry, perCode[k]);
      if reconciled.Failure? {
        assert FirstError(ms[..k + 1]) == Some(reconciled.error);
        FirstErrorPrefix(ms, k + 1);
        return Failure(reconciled.error);
      }
      temp := Some(reconciled.value);
    }
    assert ms[..|perCode|] == ms;
    if temp.None? {
      return Failure(NameError);
    }
    r := Success(Add(matTrad, temp.value, n, n));
  }
}
