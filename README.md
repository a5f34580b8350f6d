# Material flows of aluminium, and their use in a life-cycle database

This project models the core of a study of aluminium supply chains. The
modelled code does the following:

- It builds bilateral trade matrices of a commodity from customs reports, either
  from one side's reports (raw) or by reconciling the reports of importers and
  exporters with reliability indexes.
- It builds a diagonal production matrix.
- It traces consumption back to the country of origin. Two methods are
  modelled: the Kastner model, which follows material through chains of
  re-export, and the direct model, which only looks at direct imports.
- It chains these matrices along bauxite → alumina → aluminium to get
  embodied consumption.
- It aggregates country matrices into regions and normalises them.
- It writes the resulting mixes into the markets and processes of a life-cycle
  database: consumption mixes, global production mix, localised and
  globalised markets, energy inputs of alumina production, electricity
  input of liquid aluminium.
- It traverses a tagged product system and sums its impacts per tag.
- It selects the median activity among candidates, and chooses a location
  when an activity is moved to a new location.

The model is written in Dafny. Pure computations (matrix algebra, masks,
normalisation, the recursive traversal) are functions with lemmas. The
source's loops are methods proved against those functions. Market and
process exchanges that the source updates one by one are the fields of two
classes, `MixUpdate.Market` and `MixUpdate.Process`.

Modules:

- `Common`: the error kinds of the Python exceptions, `Option`/`Result`, first-index lookup, substring tests.
- `Matrices`: real matrices as sequences of rows, sums, products, partition sums.
- `TradeMatrices`: `get_mat_trad_raw` and `get_mat_trad_reconciliation`.
- `Production`: `get_mat_prod`.
- `OriginTracing`: `calculate_mat_cons_kastner` and `calculate_mat_cons`.
- `EmbodiedChain`: `calculate_emb_cons`.
- `Aggregation`: `build_reg_matrix` and `get_relative_matrix`.
- `TaggedGraph`: `recurse_tagged_database` and `aggregate_tagged_graph`.
- `ActivitySelection`: `get_median_act`, and the location fallbacks of `create_act_new_location` and `duplicate_act_new_location`.
- `MixUpdate`: the database updates of `utils_update.py`, and the index tie-break of `get_embodied_impacts`.

Conventions:

- Floats are modelled as reals.
- A Python exception is a `Failure` carrying its kind.
- A logged warning is a boolean result: true when the warning is logged.
- The linear solve of the Kastner model is not computed. Its solution `D` is a parameter, and lemmas assume that `D` solves `(I − A)·D = P`.

## Model

| member | source | states |
|---|---|---|
| TradeMatrices.Assemble | source/utils_mfa.py:237 | the sparse constructor yields an n × n matrix (its contents: AssembleTotal, FlowMatrixContents) |
| TradeMatrices.AssembleTotal | source/utils_mfa.py:237 | entries given twice are added, so the matrix total equals the sum of all cell values: no mass is lost or invented |
| TradeMatrices.Locate | source/utils_mfa.py:234-235 | each flow gets the registry rows of its importer and exporter; IndexError exactly when some code is not in the registry |
| TradeMatrices.FlowMatrixContents | source/utils_mfa.py:234-237 | a flow matrix's total is the total flow mass; entry (i, j) adds the masses of the located cells at (i, j), i.e. of the flows whose importer is first registered at row i and whose exporter at column j |
| TradeMatrices.Select | source/utils_mfa.py:115-130 | a boolean mask followed by a column selection: at most one flow per record (which ones: SelectExact, in which order: SelectAppend) |
| TradeMatrices.SelectAppend | source/utils_mfa.py:115-130 | the mask keeps record order: the flows of two batches of records are those of the first followed by those of the second |
| TradeMatrices.SelectExact | source/utils_mfa.py:115-130 | a flow is selected exactly when some kept record orients to it, and there are exactly as many flows as kept records |
| TradeMatrices.RawFlows | source/utils_mfa.py:115-130 | succeeds exactly for trade type 1 (imports) or 2 (exports); any other type leaves the index columns unset (its flows: RawFlowsExact, RawFlowsInOrder) |
| TradeMatrices.RawFlowsExact | source/utils_mfa.py:115-130 | the raw flows are exactly the records that pass the filters (no world partner, kilograms, a weight, no self-trade), one flow per kept record, with the reporter as importer for imports and as exporter for exports; no flow has the same country at both ends |
| TradeMatrices.RawFlowsInOrder | source/utils_mfa.py:115-130 | the raw flows follow the order of the records |
| TradeMatrices.RawCommodityMatrix | source/utils_mfa.py:112-132 | the raw matrix of one commodity code is n × n over the registry (its flows: RawFlowsExact) |
| TradeMatrices.ImportReports | source/utils_mfa.py:163-174 | at most one import-side flow per record (which ones: ImportReportsExact; how they enter the table: MergeKeepsImports) |
| TradeMatrices.ImportReportsExact | source/utils_mfa.py:163-174 | the import view holds exactly the records that pass step 1's filters with flow code 1, one flow each, the reporter as importer and the partner as exporter |
| TradeMatrices.ImportReportsInOrder | source/utils_mfa.py:163-174 | the import view follows the order of the records |
| TradeMatrices.ExportReports | source/utils_mfa.py:163-177 | at most one export-side flow per record (which ones: ExportReportsExact; how they enter the table: MergeExportValues, MergeAppendsExportOnlyPairs) |
| TradeMatrices.ExportReportsExact | source/utils_mfa.py:163-177 | the export view holds exactly the records that pass step 1's filters with flow code 2, one flow each, the reporter as exporter and the partner as importer |
| TradeMatrices.ExportReportsInOrder | source/utils_mfa.py:163-177 | the export view follows the order of the records |
| TradeMatrices.MergeKeepsImports | source/utils_mfa.py:179-184 | the import rows keep their position, pair and reported import |
| TradeMatrices.MergeExportValues | source/utils_mfa.py:180-184 | every row carries the last export report of its pair, or 0 when there is none |
| TradeMatrices.MergeCoversExports | source/utils_mfa.py:181-187 | every export report has a row for its importer/exporter pair |
| TradeMatrices.MergeAppendsExportOnlyPairs | source/utils_mfa.py:186-189 | rows after the import rows are export-only pairs, with import 0, one row per pair |
| TradeMatrices.MergeReports | source/utils_mfa.py:179-189 | the merge loop computes the merged transaction table, `Merge` (its rows: the four Merge lemmas above) |
| TradeMatrices.AccurateWithinTotal | source/utils_mfa.py:198-214 | a country's accurate mass in a role (transactions whose `AccuracyLevel`, the relative gap between the two reports, is within 0.2) is between 0 and its total mass in that role |
| TradeMatrices.ReliabilityBounds | source/utils_mfa.py:205-218 | every reliability index (`Reliability`: 100 × accurate mass / total mass) is in [0, 100]; NaN from 0/0 is 0 |
| TradeMatrices.ReconciledValue | source/utils_mfa.py:226-230 | the reconciled value is one of the two reported figures |
| TradeMatrices.SilentExporterKeepsImport | source/utils_mfa.py:216-228 | an exporter that reported nothing has index 0, so the importer's figure is kept |
| TradeMatrices.AgreeingReportsKeepImport | source/utils_mfa.py:192-228 | example: reports within 20% make both indexes 100, and the tie keeps the import figure |
| TradeMatrices.MoreReliableExporterWins | source/utils_mfa.py:227-230 | example: when the exporter's index is higher, its figure replaces the importer's |
| TradeMatrices.SelectValues | source/utils_mfa.py:225-230 | the selection loop writes each row's reconciled value |
| TradeMatrices.ReconciledMass | source/utils_mfa.py:225-237 | a reconciled matrix's total is the sum of the chosen figure of every transaction |
| TradeMatrices.ReconciledCommodityMatrix | source/utils_mfa.py:158-237 | the reconciled matrix of one commodity code is n × n over the registry (its mass: ReconciledMass) |
| TradeMatrices.FirstError | source/utils_mfa.py:158-161 | no error exactly when every commodity code succeeds |
| TradeMatrices.CombineAsWritten | source/utils_mfa.py:239-240 | the matrix after the loop comes from the last code only (see Findings) |
| TradeMatrices.OnlyLastCodeCounted | source/utils_mfa.py:240 | example: with two codes trading 1 and 2, the code as written returns 2 where 3 was traded |
| TradeMatrices.Combine | source/utils_mfa.py:239-240 | the intended sum over codes succeeds exactly when every code does |
| TradeMatrices.CombineTotal | source/utils_mfa.py:239-240 | the intended combined matrix's total is the sum of the codes' totals |
| TradeMatrices.RawMatrices | source/utils_mfa.py:112-132 | one n × n result per commodity code |
| TradeMatrices.RawTradeMatrix | source/utils_mfa.py:90-135 | the whole raw builder: it succeeds exactly when there is a code and every code's matrix can be built, an unknown trade type is KeyError, and the matrix returned is the last code's alone (see Findings) |
| TradeMatrices.FirstErrorIsFirst | source/utils_mfa.py:112-132 | when the first code fails, its error is the one raised |
| TradeMatrices.ReconciledMatrices | source/utils_mfa.py:158-237 | one n × n result per commodity code |
| TradeMatrices.ReconcileCode | source/utils_mfa.py:159-237 | the loop body builds the reconciled matrix of one code |
| TradeMatrices.ReconcileTrade | source/utils_mfa.py:137-241 | the whole function, with the accumulation as written |
| Production.ProductionMatrix | source/utils_mfa.py:243-264 | IndexError exactly when a record of the year names an unknown country; otherwise a diagonal matrix whose entry c is 10^6 times c's summed production |
| Production.UnknownPrefix | source/utils_mfa.py:260-261 | an unknown producer in a prefix of the records is an unknown producer of the whole list (which, by ProductionMatrix's contract, makes the lookup fail) |
| Production.ProductionPartition | source/utils_mfa.py:257-263 | the countries' productions (`YearProduction`) sum to the year's total: each record is attributed to exactly one country |
| OriginTracing.Dmi | source/utils_mfa.py:294 | one DMI per country (its relation to exports: AdjustedDmi) |
| OriginTracing.AdjustedDmi | source/utils_mfa.py:296-301 | the adjusted DMI is the larger of DMI and exports, so it is never below exports |
| OriginTracing.SafeDmi | source/utils_mfa.py:307 | no entry of the divisor is 0 |
| OriginTracing.InverseDmiAsWritten | source/utils_mfa.py:311-313 | the inverted diagonal with every 1 forced to 0 (see Findings) |
| OriginTracing.InverseDmi | source/utils_mfa.py:311-313 | the intended inverse: 0 exactly where the adjusted DMI is 0, and the reciprocal elsewhere |
| OriginTracing.ExportShares | source/utils_mfa.py:315 | A[i][j] is the mass j exports to i times j's inverse DMI |
| OriginTracing.SolvesLeontiefIsMatrixEquation | source/utils_mfa.py:318-320 | the entrywise condition on D (`SolvesLeontief`) is exactly the matrix equation (I − A)·D = P |
| OriginTracing.Consumption | source/utils_mfa.py:325-327 | R[i][j] is i's retention share times D[i][j] |
| OriginTracing.KastnerVectors | source/utils_mfa.py:293-323 | the masked assignments compute the safe DMI, the inverse as written and the retention shares |
| OriginTracing.RetentionBounds | source/utils_mfa.py:323 | with non-negative trade and production, each retention share (`Retention`: (DMI − exports) / DMI) is in [0, 1] |
| OriginTracing.SharesAndRetention | source/utils_mfa.py:315-323 | each country's exported shares (a column of `Shares`, the intended A) plus its retained share add up to 1 |
| OriginTracing.ColumnOfShares | source/utils_mfa.py:315 | column j of `T · diag(inv)` sums to j's exports times inv[j] |
| OriginTracing.ColumnSharesAtMostOne | source/utils_mfa.py:311-316 | every column of the export-share matrix sums to a value in [0, 1], both for the A the code computes (`SharesAsWritten`) and for the intended one (`Shares`) |
| OriginTracing.KastnerMassBalance | source/utils_mfa.py:315-327 | mass balance: consumption attributed to origin j equals j's production, for every D solving the system |
| OriginTracing.SolutionColumn | source/utils_mfa.py:320 | j's production is what D holds of origin j less what the countries pass on |
| OriginTracing.ConsumptionWithinDmi | source/utils_mfa.py:320-327 | with non-negative data, 0 ≤ R[i][j] ≤ D[i][j] |
| OriginTracing.IsolatedCountryConsumesNothing | source/utils_mfa.py:303-327 | a country that neither produces nor imports consumes nothing from any origin |
| OriginTracing.ZeroRowOfSolution | source/utils_mfa.py:320 | a country with no production and no incoming export share holds nothing of any origin |
| OriginTracing.ReExportTracedToOrigin | source/utils_mfa.py:266-328 | example: in a three-country chain 100 → 30 → 10, each country's consumption of the first country's production is 70, 20 and 10 |
| OriginTracing.ChainShares | source/utils_mfa.py:315 | example: the export shares of that chain are 0.3 and 1/3 |
| OriginTracing.UnitDmiLosesExports | source/utils_mfa.py:311-313 | example: with adjusted DMI exactly 1 the code as written loses the exports: 0.6 of 1 is attributed, against 1 with the intended inverse |
| OriginTracing.DirectConsumption | source/utils_mfa.py:356-360 | the direct model's matrix is n × n (its entries: DirectConsumptionColumns) |
| OriginTracing.DirectConsumptionColumns | source/utils_mfa.py:356-360 | with diagonal production, entry (i, j) is production plus trade when j produces, and 0 otherwise |
| OriginTracing.DirectConsumptionTotals | source/utils_mfa.py:356-360 | a producing country's column holds its production plus its exports; a non-producer's column is empty |
| EmbodiedChain.Downstream | source/utils_mfa.py:379 | the next mineral down the chain; aluminium has none (KeyError) |
| EmbodiedChain.Embodied | source/utils_mfa.py:363-394 | defined exactly when the consumed mineral is at or below the produced one; same mineral gives the consumption matrix itself |
| EmbodiedChain.EmbodiedRowTotals | source/utils_mfa.py:383-393 | each country's embodied consumption sums to its consumption of the final mineral times the chain's intensity |
| EmbodiedChain.EmbodiedStep | source/utils_mfa.py:386-393 | one step down the chain scales every row sum by that mineral's intensity |
| EmbodiedChain.RefineRowSums | source/utils_mfa.py:390-393 | one refinement step (`Refine`: times the intensity, times a row-normalised matrix) scales each row sum by the intensity |
| EmbodiedChain.NormalisedRows | source/utils_mfa.py:390 | the relative consumption matrix of a mineral consumed by every country has rows summing to 1 |
| EmbodiedChain.ChainIntensityComposes | source/utils_mfa.py:379-393 | the chain intensity (the product of `Intensity` along `Downstream`) composes through any intermediate mineral, and is at least 1 tonne upstream per tonne downstream |
| EmbodiedChain.BauxitePerAluminium | source/utils_mfa.py:380 | example: with input_list's constants, 1.93538 t alumina and 2.8764 × 1.93538 t bauxite per tonne of aluminium |
| Aggregation.Divisor | source/utils_mfa.py:471-473 | a zero sum is replaced by 1; other sums are kept |
| Aggregation.RelativeMatrix | source/utils_mfa.py:460-476 | the normalised matrix keeps the shape (its sums: RowsSumToOne, ColumnsSumToOne) |
| Aggregation.RowsSumToOne | source/utils_mfa.py:466-475 | with axis 1, a row with a non-zero sum sums to 1; a zero-sum row is unchanged |
| Aggregation.ColumnsSumToOne | source/utils_mfa.py:465-475 | with axis 0, a column with a non-zero sum sums to 1; a zero-sum column is unchanged |
| Aggregation.RelativeIdempotent | source/utils_mfa.py:470-475 | normalising twice along the same axis equals normalising once |
| Aggregation.RelativeShares | source/utils_mfa.py:470-475 | with non-negative entries every normalised entry is in [0, 1] |
| Aggregation.SortedDistinct | source/utils_mfa.py:414 | the result is strictly increasing and holds exactly the input's labels |
| Aggregation.RegionList | source/utils_mfa.py:414 | sorting NaN together with names raises TypeError; otherwise the sorted distinct labels ([NaN] when all are NaN) |
| Aggregation.AggregateRows | source/utils_mfa.py:418-421 | the loop over regions fills row r with the sum of the rows of the countries labelled r (`RowAggregate`) |
| Aggregation.AggregateColumns | source/utils_mfa.py:431-434 | the loop over regions fills column r with the sum of the columns of the countries labelled r (`ColumnAggregate`) |
| Aggregation.RowAggregateTotal | source/utils_mfa.py:418-421 | row aggregation over regions covering every label keeps each column sum and the grand total |
| Aggregation.ColumnAggregateTotal | source/utils_mfa.py:431-434 | column aggregation keeps each row sum and the grand total |
| Aggregation.NoneUnmatched | source/utils_mfa.py:420 | when every country is labelled, nothing is summed under the NaN label |
| Aggregation.GroupingColumn | source/utils_mfa.py:414 | a grouping the table lacks raises KeyError; otherwise one label per country |
| Aggregation.Regions | source/utils_mfa.py:414-420 | a grouping's labels and its region list, or KeyError/TypeError |
| Aggregation.RegMatrix | source/utils_mfa.py:396-458 | no grouping leaves the result unbound (NameError); otherwise a matrix sized by its row and column names, or KeyError/TypeError |
| Aggregation.BuildRegMatrix | source/utils_mfa.py:396-458 | the three branches and their loops compute the aggregate |
| Aggregation.RegMatrixTotal | source/utils_mfa.py:396-458 | with fully labelled groupings the aggregate succeeds and keeps the grand total |
| Aggregation.UnlabelledCountriesDropped | source/utils_mfa.py:414-421 | a grouping whose labels are all NaN yields one region, and its row is empty |
| TaggedGraph.Plus | source/utils_brightway.py:100-108 | numeric `+`: the values add, and the result is an int only when both operands are |
| TaggedGraph.Recurse | source/utils_brightway.py:21-84 | node fields: amount, tag, secondary tag; an expanded node has impact 0 and one child per exchange, and a leaf has the LCA score and no flows |
| TaggedGraph.TraversalDepth | source/utils_brightway.py:57-58 | the tree is never deeper than the depth limit |
| TaggedGraph.LevelScalesDown | source/utils_brightway.py:65-72 | at every node, child k is exchange k's input and the children's and flows' amounts are the exchange amounts times the node's amount; a flow's impact is its amount times the characterisation factor, 0 for a flow without one |
| TaggedGraph.AmountPropagation | source/utils_brightway.py:71-72 | the scaling holds at every level of the tree |
| TaggedGraph.TagInheritance | source/utils_brightway.py:62-72 | with a non-empty default tag, every node and flow carries a non-empty tag |
| TaggedGraph.SecondaryTagging | source/utils_brightway.py:63-72 | a secondary default set (or no secondary label) makes the whole tree uniformly tagged or untagged |
| TaggedGraph.AddOwn | source/utils_brightway.py:97-108 | a node's own impact and flows are added one `+=` at a time (`Add`, folded over the entries by `AddAll`) |
| TaggedGraph.Recursor | source/utils_brightway.py:96-111 | the recursor adds the node's entries, then its children's in order |
| TaggedGraph.AggregateTaggedGraph | source/utils_brightway.py:86-116 | the scores are all the graph's entries added in traversal order |
| TaggedGraph.FlatScores | source/utils_brightway.py:105-108 | with no secondary tags, each tag's score is the sum of the impacts of its entries |
| TaggedGraph.NestedScores | source/utils_brightway.py:97-104 | with secondary tags, each (tag, secondary) score is the sum of its entries' impacts |
| TaggedGraph.TagTotals | source/utils_brightway.py:86-116 | summed over all tags, the scores are the graph's total impact |
| TaggedGraph.SecondaryTotals | source/utils_brightway.py:86-116 | for a secondary-tagged graph every pair's score is its entries' impact |
| ActivitySelection.Candidates | source/utils_brightway.py:230-233 | exactly the database activities matching the query |
| ActivitySelection.SortByScore | source/utils_brightway.py:248 | sorting by score gives an ascending permutation of the rows |
| ActivitySelection.LastAtMost | source/utils_brightway.py:250 | the last position whose value is at most the bound; None exactly when none is |
| ActivitySelection.LowerMiddle | source/utils_brightway.py:249-250 | in ascending values, the last value at most the median is the lower middle (the median itself for an odd count) |
| ActivitySelection.SelectedRow | source/utils_brightway.py:248-250 | the chosen row is an activity whose score is the largest at most the median |
| ActivitySelection.MedianActivity | source/utils_brightway.py:216-250 | KeyError exactly when there is no candidate; otherwise the code of a candidate with the largest score at most the median |
| ActivitySelection.MedianIsLowerMiddle | source/utils_brightway.py:248-250 | the chosen score is the lower middle of the sorted scores |
| ActivitySelection.FirstContaining | source/utils_brightway.py:377-378 | the first location containing "RoW"; None exactly when none does |
| ActivitySelection.FallbackLocation | source/utils_brightway.py:373-380 | order of choice: the new location, then GLO, then the first location containing RoW, then the first available one; IndexError exactly when none are available |
| ActivitySelection.FallbackInput | source/utils_brightway.py:460-468 | the position of the first activity at the new location, else the first at GLO, else the first RoW variant, else 0; IndexError exactly when there are no activities |
| ActivitySelection.FallbackSitesAgree | source/utils_brightway.py:460-468 | the second call site links the first activity at the location the first call site chooses |
| MixUpdate.PositionsComplete | source/utils_update.py:175 | the row positions found are every matching row, in ascending order |
| MixUpdate.CountryIndices | source/utils_update.py:175-177 | a location's countries are valid registry rows |
| MixUpdate.LocationSum | source/utils_update.py:177 | local consumption (`LocalConsumption`) is the summed consumption of the rows labelled with the location |
| MixUpdate.OneHotTotal | source/utils_update.py:296-303 | a one-hot mix (`OneHot`) sums to 1 when the target is among the exchanges, else 0 |
| MixUpdate.Localized | source/utils_update.py:289-303 | AssertionError exactly when no GLO exchange exists; otherwise the locations are kept |
| MixUpdate.LocalizedMix | source/utils_update.py:291-303 | the mix is 1 on the market's own location, else on GLO, and sums to 1 |
| MixUpdate.Globalized | source/utils_update.py:328-337 | AssertionError exactly when no GLO exchange exists; otherwise the locations are kept |
| MixUpdate.GlobalizedMix | source/utils_update.py:330-337 | the mix is 1 on GLO only and sums to 1 |
| MixUpdate.ConsumptionMix | source/utils_update.py:175-218 | AssertionError exactly when local consumption is 0 and no GLO exchange exists; otherwise the locations are kept |
| MixUpdate.MixSumByRows | source/utils_update.py:204-210 | the double loop sums, per consuming row, the shares of the producing columns |
| MixUpdate.ConsumptionMixTotal | source/utils_update.py:196-215 | the mixes' total (the amounts `Mixed` sets) is the consuming rows' shares of the locations covered by the exchanges |
| MixUpdate.ConsumptionMixSumsToOne | source/utils_update.py:216-218 | when the exchanges cover every country, the consumption mixes sum to 1 |
| MixUpdate.ConsumptionMixAtMostOne | source/utils_update.py:216-218 | with non-negative consumption the mixes sum to at most 1, so the warning flags missing producers |
| MixUpdate.MixOf | source/utils_update.py:204-210 | the double loop computes one location's mix |
| MixUpdate.ProductionMixTotal | source/utils_update.py:244-261 | the inputs' total (the amounts `ProductionMix` sets) is the diagonal production of the covered locations |
| MixUpdate.ProductionMixComplete | source/utils_update.py:243-265 | when the exchanges cover every country, the inputs sum to total production |
| MixUpdate.ProductionMixBounded | source/utils_update.py:263-265 | with non-negative production the inputs never exceed total production |
| MixUpdate.ProductionOf | source/utils_update.py:252-256 | the loop sums the diagonal production of a location's countries |
| MixUpdate.Market.SetOneHot | source/utils_update.py:296-303 | each exchange's amount becomes 1 on the target location and 0 elsewhere |
| MixUpdate.Market.Localize | source/utils_update.py:286-304 | the market gets the localised mix, or AssertionError with nothing changed |
| MixUpdate.Market.Globalize | source/utils_update.py:325-338 | the market gets the global mix, or AssertionError with nothing changed |
| MixUpdate.Market.UpdateConsumptionMix | source/utils_update.py:173-219 | the market gets its consumption mix; the warning is logged exactly when consumption is non-zero and the mixes sum below 1 |
| MixUpdate.Market.UpdateGlobalProduction | source/utils_update.py:236-265 | the market moves to GLO, gets the production mix, and warns exactly when inputs fall short of total production |
| MixUpdate.EnergyAmount | source/utils_update.py:128-133 | an amount exists exactly for megajoule and kilowatt-hour exchanges |
| MixUpdate.SameEnergy | source/utils_update.py:128-133 | the kWh amount is the MJ amount divided by 3.6 |
| MixUpdate.MatchingComplete | source/utils_update.py:117 | the search finds every exchange whose input name contains the energy name, in order |
| MixUpdate.EnergyStep | source/utils_update.py:116-136 | one iteration keeps the exchange list's names and units and adds the mix to the total; a name without a single match keeps the exchange held before, which may be an earlier process's; NameError when a variable is still unbound |
| MixUpdate.RunEnergy | source/utils_update.py:115-137 | the loop keeps names and units; its only error is NameError |
| MixUpdate.AluminaEnergy | source/utils_update.py:103-139 | one process, started from what `energy_exc` and `energy_exc_amount` hold on arrival: the update changes this process's amounts only, its only error is NameError, and it reports what it wrote into an earlier process's exchange and what the variables hold for the next process |
| MixUpdate.AluminaEnergyReset | source/utils_update.py:103-139 | the intended update, with the variables unbound at each process: it never writes outside the process's own exchanges (see Findings) |
| MixUpdate.RunStaysLocal | source/utils_update.py:115-136 | a run that holds no earlier process's exchange never comes to hold one, so it writes only its own exchanges |
| MixUpdate.StaleExchangeOverwritten | source/utils_update.py:117-136 | as written, a later process whose energy name finds no single exchange does not fail: this region's amount goes into the exchange the previous process left in `energy_exc`, and the process's own exchanges stay unchanged (see Findings) |
| MixUpdate.EnergyOneToOne | source/utils_update.py:115-137 | when each energy name finds exactly one exchange in an energy unit, the loop succeeds, totals the mixes, sets each exchange to its converted amount and leaves the others alone |
| MixUpdate.FirstNameUnbound | source/utils_update.py:118-124 | for the first process only (variables unbound on arrival), a first name without a single match reads `energy_exc` unbound: NameError, nothing updated |
| MixUpdate.EnergyIteration | source/utils_update.py:116-136 | the loop body on the loop variables computes exactly EnergyStep: the lookup, the fallback to the exchange held before, the unit conversion, the write and the NameError cases |
| MixUpdate.Process.UpdateAluminaEnergy | source/utils_update.py:103-140 | given what the loop variables hold on arrival, the in-place loop yields AluminaEnergy's exchanges, warning decision (total < 0.99), write into an earlier exchange and variables for the next process |
| MixUpdate.ElectricityInput | source/utils_update.py:44-52 | the regional figure in kWh per kg (÷ 1000), the world figure when the region's is ND, ValueError when both are ND |
| MixUpdate.ElectricityTarget | source/utils_update.py:50-54 | the electricity update (`ElectricityUpdate`) raises IndexError exactly when no exchange names electricity; otherwise only the first such exchange gets the new amount |
| MixUpdate.Process.UpdateElectricity | source/utils_update.py:37-54 | the process gets the electricity update, or the error with nothing changed |
| MixUpdate.ProducerIndex | source/utils_update.py:354-362 | a producing country's index is a registry row holding that country; ValueError exactly when the country has neither 1 nor 2 rows (which row: IndexTieBreak) |
| MixUpdate.SpatialIndex | source/utils_update.py:364-370 | a spatial country's index is a registry row holding that country; ValueError exactly when it has neither 1 nor 2 rows |
| MixUpdate.IndexTieBreak | source/utils_update.py:355-370 | the spatial index is the first row; from 2006 the producer index equals it, and before 2006 it is the last row |

## Left out

- I/O is left out: reading the Excel/CSV inputs and querying the Comtrade API (`get_commodity_data`, lines 14-88 of utils_mfa.py) become parameters. These are the records per commodity code, the country registry, the production records and the correspondence table.
- Saving the database and loading the stored `.npz` trade matrices are left out.
- The LCA computations become a score parameter: `bw.LCA`, `lci`, `lcia`, `redo_lca_score` and `get_activity`. An LCA that fails (`StopIteration`) is not modelled.
- The linear solve `spsolve((I − A), I)·P` is not computed. `D` is a parameter, and the Kastner lemmas assume that it solves `(I − A)·D = P`. The model does not state that a solution exists.
- The `print` of the inventory-change share (utils_mfa.py:299) and the logging calls are left out. Only the conditions under which a warning is logged are modelled.
- Floating-point rounding, NaN and infinity are left out. In the reliability index the only NaN, 0/0, becomes 0 as in the source.
- The country registry and the correspondence table are taken to be the same list of countries, so their lengths equal the matrix size.
- The selection of markets, processes and exchanges by activity name in the database is left out, as are the loops over minerals, markets and activities. Each update is modelled for one market or one process whose exchanges are given.
- The `reg == 0` branch of `dbUpdate_EnerAlumina` is left out: it only logs a warning, then reads `ene_mix_tot` from a previous activity.
- MixUpdate.AluminaEnergy: the loop over alumina processes is not modelled as a whole. `energy_exc` and `energy_exc_amount` are locals of the whole function and carry over from one process to the next (utils_update.py:103, 117-135). The model threads them through the `Carry` a process starts from and returns. A write through a left-over `energy_exc` lands in the earlier process's exchange, which is then saved again. The model reports that amount as `earlier` and does not apply it to the earlier process's exchange list.
- The electricity-mix loop of `dbUpdate_ElecAluLiq` (utils_update.py:55-84) is not modelled.
- The IAI and correspondence lookups that pick the region in `dbUpdate_ElecAluLiq` are left out. The regional and world figures are parameters.
- `get_embodied_impacts` is modelled only for its index tie-break. Building the sparse matrix and the product with the consumption matrix are not modelled.
- `get_glo_if`, `traverse_tagged_databases_to_dataframe`, `get_multilca_to_dataframe` and `get_activity_to_dataframe` are not modelled: they are dataframe formatting around the modelled functions. The rest of `create_act_new_location` and `duplicate_act_new_location` (copying exchanges and uncertainty) is not modelled either.
- MixUpdate.ProducerIndex: a country with 0 or more than 2 registry rows is modelled as ValueError. pandas accepts such an array assignment when its length happens to equal the number of rows it is assigned to. The same holds for MixUpdate.SpatialIndex.
- ActivitySelection.MedianActivity: the sort in `sort_values` is not stable, so which of several activities with equal scores is chosen is not fixed. The contract states only that a candidate with the largest score at most the median is returned.
- MixUpdate.Market.UpdateGlobalProduction: the search for the market by name (`bw_db.get`) is not modelled. The market is given.
- EmbodiedChain.Embodied: `get_relative_matrix` normalises along either axis; `calculate_emb_cons` asks for `axis=1` (utils_mfa.py:390), so the model normalises the rows only. Column normalisation is modelled in `Aggregation.RelativeMatrix`.
- Aggregation.RegMatrix: the labels are read without filling missing ones (utils_mfa.py:411-414). A country without a label matches no region and is dropped from the aggregate, and NaN among region names makes the sort a TypeError. Countries are not defaulted to a region of their own.
- TaggedGraph.Plus: Python's dynamic typing is reduced to int versus float. Mixing a flat score with a nested one (a `defaultdict` and a number) is a TypeError failure.

## Findings

| source | as written | input that shows it | evidently intended | confidence | as-written member | corrected member |
|---|---|---|---|---|---|---|
| source/utils_mfa.py:240 | `mat_trad = mat_trad + temp_mat_trad` sits after the loop over commodity codes, so only the last code's matrix is kept (line 134 does the same in the raw builder) | two commodity codes trading 1 and 2 on the same pair: the result is 2 | the sum over all codes, 3 | not executed | TradeMatrices.OnlyLastCodeCounted | TradeMatrices.CombineTotal |
| source/utils_mfa.py:313 | `inv_mat_dmi[inv_mat_dmi==1]=0` also zeroes the inverse of a country whose adjusted DMI is exactly 1, not only the entries forced to 1 at line 307 | two countries; country 0 produces 1 and exports 0.4 to country 1: its column of the result sums to 0.6, not 1 | zero only where the adjusted DMI was 0, which keeps the mass balance | not executed | OriginTracing.UnitDmiLosesExports | OriginTracing.KastnerMassBalance |
| source/utils_update.py:117-136 | `energy_exc` and `energy_exc_amount` are not reset between alumina processes, and a name with no single match only logs a warning (the `return` is commented out) | two alumina processes: the first has exactly one exchange matching the first energy name, in megajoule; the second has none; the second's loop writes its own region's amount into the first process's exchange and saves it | each process reads and writes only its own exchanges | not executed | MixUpdate.StaleExchangeOverwritten | MixUpdate.AluminaEnergyReset |
