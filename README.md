# Futures position analysis — a Dafny model

The system analyses the daily member-position rankings ("持仓排名") that China's
five futures exchanges publish. There are three parts:

- **Normalisation.** Each exchange workbook holds one sheet per contract. The
  sheets are normalised into a table of seat rows: long party, long holding and
  change, short party, short holding and change, and volume.
- **Strategies.** Three strategies are applied to each table:
  - *power change*: the directions in which the total longs and shorts moved;
  - *spider web*: the informed seats, ranked by volume-weighted activity, are
    compared with the rest;
  - *retail reverse*: do the opposite of a configured list of "retail" seats.
- **Aggregation.** Per-contract signals are combined into summaries, forecasts
  and a *resonance* list. Resonance means several strategies point the same way
  on the same variety. Separately, futures price curves are classified as back
  (falling), contango (rising) or flat.

Around the analysers sit several data fetchers:

- the plain exchange download;
- a fetcher that assembles exchange-format workbooks from per-contract "hold
  position" tables;
- a Sina-based variant of that fetcher;
- a cloud fetcher with retries, back-off and special treatment of the Guangzhou
  exchange (GFEX).

## Layout of the model

There is one Dafny module per source file of the core, plus some shared modules.

- **Modules per source file.** Each copy of the analyser or fetcher logic that
  differs from the others gets its own module. For example, each of the three
  retail-reverse rules (every-seat, changed-seats-with-shares and
  aggregate-totals) is modelled where it is defined. Lemmas relate the copies
  where they agree or differ: `PositionAnalysis.ShortTableAgreesWithEngine`,
  `RetailReverse.SameDirectionAsPositionAnalysis`,
  `AppStreamlitOptimized.AgreesWithFullPageWhenMonotone`,
  `AppStreamlitOptimized.EndpointCanDisagree` and
  `AppStreamlitOptimized.OneStrategyCanResonate`.
- **Copies modelled once.** Two copies are textually identical to another one,
  so they are modelled once:
  - `analyze_retail_reverse_strategy` of `app_streamlit_optimized.py`
    (lines 188-235) is the one in `app_streamlit.py`, modelled in
    `AppStreamlit`;
  - `get_main_contract` and `fetch_single_contract_data` of
    `sina_position_fetcher.py` (lines 66-125 and 127-177) are the same as
    `get_main_contract_from_symbol` and `fetch_single_contract_data` of
    `integrated_data_fetcher.py`. They are modelled by
    `IntegratedFetcher.MainContract` and `HoldPos.FetchSingleContract`.
- **Shared modules.**
  - `Wrappers`: `Option`.
  - `Text`: characters, case, split and strip, string order, integer printing.
  - `Sorting`: a stable insertion sort by key, with its sortedness,
    permutation and stability lemmas.
  - `Position`: the raw and parsed tables and the per-seat accumulators.
  - `Signals`: directions, signals, tallies, means.
  - `Curves`: the strict term-structure rule and the price-row filters.
  - `Calendar`: proleptic Gregorian dates, `strptime`/`strftime` for
    `%Y%m%d`, and `timedelta(days=1)`.
  - `Sheets`: Excel sheet-name cleaning.
  - `HoldPos`: the per-contract table handling that both hold-position
    fetchers share.
- **How effects are modelled.**
  - A remote call is an oracle function from the attempt number to its outcome.
  - A sleep is an entry in a returned log.
  - An Excel write is a sink: a map from file name to its sheets.
  - Where the source changes an object's fields (the cloud fetcher's
    `max_retries`), the model is a class with a `modifies` clause.
- **Form of the proofs.** Loops in the source are `while` loops in methods.
  Each loop is proved against a specification function, and the lemmas state
  the promised properties of that function.

Numbers:

- Position counts are integers, and a cell that does not parse is missing
  (`None`) and contributes 0.
- Ratios and means are `real`.
- `int(n * 0.4)` is written `2 * n / 5`. The double `0.4` lies just above
  two fifths, so the product never truncates below that integer.

In `futures_position_analysis.py` the retail-reverse rule tests "every changed
seat added longs" (bearish) before "every changed seat added shorts" (bullish).
It is the long test that takes precedence, and `PositionAnalysis.RetailVerdict`
states that order.

## Model

| member | source | states |
|---|---|---|
| Position.Rename | futures_analyzer.py:307-315 | same height and column count; each column keeps its cells and takes the mapped name when its name is a key of the mapping, else keeps its name |
| Position.StripSeparators | futures_analyzer.py:282 | the cleaned text contains no `,` and no space |
| Position.StripSeparatorsSnoc | futures_analyzer.py:282 | character by character: a comma or a space is dropped, every other character is kept in order |
| Position.ParseLotsOfIntToString | futures_analyzer.py:282-283 | a written integer parses back to itself, so no position count is lost |
| Position.TotalNonNegative | futures_analyzer.py:286-289 | a column total over non-negative figures is non-negative |
| Position.SeatsTotalBound | futures_analyzer.py:401-409 | with non-negative figures, what distinct seats hold lies between 0 and the table total |
| Position.Dedup | futures_analyzer.py:401 | no name twice, and exactly the names of the watch list |
| Position.InSeatsTotalBound | futures_analyzer.py:446-448 | with non-negative figures the rows whose party is watched hold between 0 and the table total |
| Position.SeatsTotalIsInSeatsTotal | futures_analyzer.py:401-409 | summing per distinct seat equals summing the rows whose party is watched |
| Position.AccumulateSeatStats | futures_analyzer.py:401-409 | an entry for exactly the watched seats, each holding the sums of its long-role and short-role changes and holdings over all rows |
| Position.AccumulateSeatChanges | futures_position_analysis.py:98-103 | an entry for exactly the watched seats, each holding the sums of its long-side and short-side changes |
| Position.SumRetailHoldings | futures_position_analysis.py:119-126 | the open interest of rows whose long party, or short party, is watched |
| Signals.ByStrengthOrdered | futures_analyzer.py:742-743 | sorting by strength is a permutation, non-increasing in strength, and keeps entries of equal strength in input order |
| Signals.TallyWellFormed | futures_analyzer.py:787-802 | every entry's count equals the length of its strategy list |
| Signals.TallyCounts | futures_analyzer.py:787-802 | a code has an entry iff it is mentioned; its count is its number of mentions and its strategy list the strategies mentioning it, in order |
| Signals.Resonant | futures_analyzer.py:805-806 | exactly the entries with count at least 2, unchanged |
| Signals.ResonantIff | futures_analyzer.py:805-806 | a code is reported if and only if it is mentioned at least twice |
| Signals.MeanBound | futures_analyzer.py:383 | a mean lies within any bounds its values lie within |
| Curves.StrictStructure | futures_analyzer.py:554-574 | back iff every step falls, contango iff every step rises, flat otherwise (and for fewer than two prices) |
| Curves.MixedStepsAreFlat | futures_analyzer.py:554-574 | one non-falling and one non-rising step force flat |
| Curves.DecreasingEverywhere | futures_analyzer.py:554-574 | a curve falling at every step falls between any two of its points |
| Curves.IncreasingEverywhere | futures_analyzer.py:554-574 | a curve rising at every step rises between any two of its points |
| Curves.Varieties | futures_analyzer.py:490 | no variety twice, and exactly the varieties of the rows |
| Curves.RowsOfVariety | futures_analyzer.py:493 | exactly the rows of that variety |
| Curves.WithPositiveClose | futures_analyzer.py:496-499 | exactly the rows with a present, positive close |
| Curves.Closes | futures_analyzer.py:496-499 | the close of each row, aligned with the rows, a missing close read as 0 |
| Curves.PricedPermutation | futures_analyzer.py:496-499 | the positive-close rows of a reordering are a reordering of the positive-close rows |
| Curves.DrawnSize | futures_analyzer.py:493-518 | a curve made of its variety's positive-close rows has one contract per such row |
| Curves.BySymbolOrdered | app_streamlit.py:108 | sorting by symbol is a permutation with symbols in string order |
| Curves.FilterKeepsSymbolOrder | app_streamlit.py:108-114 | dropping the rows without a positive close keeps a symbol-ordered curve in symbol order |
| Calendar.ParseYmd | futures_analyzer.py:817 | `strptime('%Y%m%d')` with its regex alternatives for month and day and the unconverted-data check; whatever it returns is a valid date |
| Calendar.NextDay | utils.py:125 | for any date but the last, a valid date one ordinal later |
| Calendar.OrdinalOrder | utils.py:121 | date comparison is comparison of day ordinals |
| Calendar.NothingAfterLast | utils.py:125 | no valid date lies after 9999-12-31 |
| Calendar.FormatYmd | utils.py:124 | `strftime('%Y%m%d')`: exactly eight digits |
| Calendar.ParseFormatRoundTrip | utils.py:115-124 | parsing a formatted date gives the date back |
| Sheets.CleanSheetName | futures_analyzer.py:96 | at most 31 characters, no `/` and no `*` |
| Sheets.CleanSheetNameKeepsClean | futures_analyzer.py:96 | a short name without `/` or `*` is kept as it is |
| Sheets.CleanSheetNameIdempotent | futures_analyzer.py:96 | cleaning twice is cleaning once |
| Sheets.CleanSheets | futures_analyzer.py:93-97 | every sheet of the dict is written under its cleaned name |
| FuturesAnalyzer.StandardizeColumns | futures_analyzer.py:303-317 | unchanged without `g_party_n`; otherwise the Zhengzhou names mapped; the result never has `g_party_n`; same rows |
| FuturesAnalyzer.ZceRenamesTargets | futures_analyzer.py:307-315 | no Zhengzhou name maps to `g_party_n` |
| FuturesAnalyzer.StandardizeColumnsIdempotent | futures_analyzer.py:303-317 | normalising twice is normalising once |
| FuturesAnalyzer.ProcessPositionData | futures_analyzer.py:260-301 | `None` iff one of the seven columns is missing after normalisation; otherwise every row parsed and each of the four totals the sum over all rows |
| FuturesAnalyzer.ProcessCanonicalTable | futures_analyzer.py:260-301 | a canonical table is accepted with all its rows |
| FuturesAnalyzer.AnalyzePowerChange | futures_analyzer.py:319-336 | long iff longs grow and shorts shrink, short iff the reverse; strength \|long change\| + \|short change\| for both, 0 when neutral |
| FuturesAnalyzer.PowerChangeMirror | futures_analyzer.py:319-336 | swapping the sides, or negating both changes, swaps long and short and keeps the strength |
| FuturesAnalyzer.EligibleRows | futures_analyzer.py:344-348 | exactly the rows with a present positive volume and present long and short holdings |
| FuturesAnalyzer.SpiderSplit | futures_analyzer.py:354-361 | informed followed by uninformed is the stat-sorted eligible rows, together a permutation of them; with n >= 5 eligible rows the informed group has max(2, `int(0.4 n)`) rows |
| FuturesAnalyzer.SpiderGroupsOrdered | futures_analyzer.py:354-361 | every informed row's stat is at least every uninformed row's |
| FuturesAnalyzer.ImbalancesBounded | futures_analyzer.py:367-377 | with non-negative holdings every imbalance lies in [-1, 1] |
| FuturesAnalyzer.MsdVerdict | futures_analyzer.py:379-390 | msd > 0.05 long, msd < -0.05 short, otherwise neutral; strength \|msd\| in every case |
| FuturesAnalyzer.SpiderStrengthBound | futures_analyzer.py:350-390 | with non-negative holdings the strength lies in [0, 2], and the verdict is never a failure |
| FuturesAnalyzer.CollectImbalances | futures_analyzer.py:367-377 | the loop collects the imbalance of exactly the group rows with a positive total, in order |
| FuturesAnalyzer.AnalyzeSpiderWeb | futures_analyzer.py:338-393 | the method's verdict is the spider-web rule on the table rows |
| FuturesAnalyzer.ActiveOfMeaning | futures_analyzer.py:412-421 | every entry is a watched seat holding something, with its accumulated figures; every such seat is listed |
| FuturesAnalyzer.EverySeatVerdict | futures_analyzer.py:433-467 | long iff every active seat adds shorts and does not add longs, short iff the converse; strength the retail share of open interest (0 on a zero total); neutral 0 otherwise |
| FuturesAnalyzer.AnalyzeRetailReverse | futures_analyzer.py:395-470 | the active seats of the deduplicated watch list, and the every-seat verdict on them |
| FuturesAnalyzer.CollectActive | futures_analyzer.py:412-421 | the loop keeps exactly the active seats, in order |
| FuturesAnalyzer.HeldIsSeatsTotal | futures_analyzer.py:446-448 | with non-negative holdings the active seats hold exactly what the watched seats hold in the table |
| FuturesAnalyzer.RetailStrengthBound | futures_analyzer.py:446-448 | with non-negative holdings the retail strength lies in [0, 1] |
| FuturesAnalyzer.MonthKeyOfCode | futures_analyzer.py:527-542 | a symbol ending in `YYMM` gets (2000 + YY if YY < 50, else 1900 + YY) * 100 + MM |
| FuturesAnalyzer.MonthKeyChronological | futures_analyzer.py:527-542 | keys order real months by year, then month |
| FuturesAnalyzer.DatedBeforeUndated | futures_analyzer.py:523-552 | every key is at most 999999, and strictly less when the symbol ends in four digits |
| FuturesAnalyzer.DetermineStructureStrict | futures_analyzer.py:554-574 | the flag loop yields exactly the strict rule |
| FuturesAnalyzer.AnalyzeTermStructure | futures_analyzer.py:475-521 | the variety loop yields the curves of the specification, in order of first appearance |
| FuturesAnalyzer.BuildCurve | futures_analyzer.py:493-518 | the loop body yields the specified curve of one variety: positive closes, at least two, sorted by month key, strict rule |
| FuturesAnalyzer.SortedCurve | futures_analyzer.py:496-518 | the kept rows sorted by month give positive closes in month-key order |
| FuturesAnalyzer.TermStructureWellFormed | futures_analyzer.py:475-521 | each curve has two or more contracts, positive closes, nearest month first and the strict label, and its contracts and closes are exactly its variety's positive-close rows, each once; no variety twice |
| FuturesAnalyzer.SortedRowsCurve | futures_analyzer.py:493-518 | a variety's priced rows in month order make a well-formed curve |
| FuturesAnalyzer.CurvesOfComplete | futures_analyzer.py:490-519 | every listed variety with two or more positive-close rows gets its curve |
| FuturesAnalyzer.TermStructureComplete | futures_analyzer.py:475-521 | both directions: a variety has a curve iff the table has the three columns and the variety has two or more positive-close rows |
| FuturesAnalyzer.SignalsOf | futures_analyzer.py:721-740 | exactly the results on which the strategy gave that direction, as entries, at most one per result |
| FuturesAnalyzer.StrategySummaryOrdered | futures_analyzer.py:721-745 | the summary lists are a permutation of the directional signals, strength non-increasing |
| FuturesAnalyzer.MentionsOfMeaning | futures_analyzer.py:770-802 | one mention per signal of the list, carrying its variety code |
| FuturesAnalyzer.DirectionMentionsBound | futures_analyzer.py:787-802 | at most ten mentions per strategy and direction |
| FuturesAnalyzer.TallyList | futures_analyzer.py:787-802 | the tally after a list equals the tally of all mentions so far plus that list's |
| FuturesAnalyzer.CalculateSignalResonance | futures_analyzer.py:768-812 | the counting loops give the tally of all mentions, cut to count >= 2 |
| FuturesAnalyzer.ResonanceMeaning | futures_analyzer.py:768-812 | a code resonates iff mentioned at least twice; count equals its mentions and the length of its strategy list |
| FuturesAnalyzer.GenerateSummary | futures_analyzer.py:708-766 | per strategy the ordered long and short lists, the resonance of both directions, and statistics counting exactly those |
| FuturesAnalyzer.SignalCountBound | futures_analyzer.py:708-766 | lists of at most n signals each hold at most n signals per strategy together |
| FuturesAnalyzer.StrategySummaryLength | futures_analyzer.py:708-766 | a strategy's long and short lists are no longer than the results |
| FuturesAnalyzer.SuccessCount | futures_analyzer.py:79-108 | positive iff one of the first n exchanges had data and its write went through; at most n |
| FuturesAnalyzer.FetchPositionData | futures_analyzer.py:72-108 | true iff at least one exchange had data and its write went through; the sink holds exactly the workbooks of those exchanges, a raising call or write being skipped |
| FuturesAnalyzer.PositionFilesDistinct | futures_analyzer.py:79-86 | the five exchange file names differ |
| FuturesAnalyzer.DownloadedContents | futures_analyzer.py:88-101 | an exchange has a workbook iff it had data and its write went through, holding its sheets under cleaned names |
| FuturesAnalyzer.DownloadedFiles | futures_analyzer.py:88-101 | no other file is written |
| FuturesAnalyzer.SavedSheetNamesClean | futures_analyzer.py:96 | every saved sheet name has at most 31 characters and no `/` or `*` |
| FuturesAnalyzer.ValidateTradeDate | futures_analyzer.py:814-820 | an accepted text begins with four digits |
| FuturesAnalyzer.TradeDateAcceptsFormatted | futures_analyzer.py:814-820 | every date written as `YYYYMMDD` is accepted |
| PositionAnalysis.StandardizeColumns | futures_position_analysis.py:256-265 | unchanged unless both `g_party_n` and `t_party_n` are present; same rows |
| PositionAnalysis.ProcessPositionData | futures_position_analysis.py:248-299 | `None` iff a column is missing; otherwise the first min(n, 20) rows, parsed, with totals over exactly those rows |
| PositionAnalysis.ShortTableAgreesWithEngine | futures_position_analysis.py:275-289 | on tables of at most 20 rows with both or neither party column, this processing gives the engine's result |
| PositionAnalysis.PowerChange | futures_position_analysis.py:22-36 | the engine's sign rule; strength \|long change\| when long, \|short change\| when short, 0 when neutral |
| PositionAnalysis.PowerChangeWithinEngine | futures_position_analysis.py:22-36 | same direction as the engine, strength never larger |
| PositionAnalysis.PowerChangeSwap | futures_position_analysis.py:28-33 | swapping the sides swaps the direction, strength kept |
| PositionAnalysis.SpiderSplit | futures_position_analysis.py:58-65 | informed followed by uninformed is the stat-sorted valid rows, together a permutation of them; the informed group has `int(0.4 n)` rows, each ranking at least as high as every uninformed one |
| PositionAnalysis.ImbalancesBounded | futures_position_analysis.py:67-70 | with non-negative holdings every imbalance lies in [-1, 1] |
| PositionAnalysis.SpiderWeb | futures_position_analysis.py:43-84 | no valid rows or no mean difference is neutral 0; otherwise msd > 0 long, < 0 short, 0 neutral, strength \|msd\| |
| PositionAnalysis.SmallTableNeutral | futures_position_analysis.py:63-65 | with at most two valid rows the result is neutral 0 |
| PositionAnalysis.SpiderStrengthBound | futures_position_analysis.py:72-80 | with non-negative holdings the strength lies in [0, 2] |
| PositionAnalysis.ChangedMeaning | futures_position_analysis.py:106-112 | every entry is a watched seat with a non-zero accumulated change, with its changes; every such seat is listed |
| PositionAnalysis.RetailVerdict | futures_position_analysis.py:115-140 | every changed seat adding longs is bearish with retail long / total long; otherwise every one adding shorts is bullish with retail short / total short; a zero total gives 0; otherwise neutral 0 |
| PositionAnalysis.AnalyzeRetailReverse | futures_position_analysis.py:92-144 | the method's verdict is the retail rule on the accumulated changes and retail holdings |
| PositionAnalysis.CollectChanged | futures_position_analysis.py:106-112 | the loop keeps exactly the changed seats |
| PositionAnalysis.RetailStrengthBound | futures_position_analysis.py:128-140 | the retail strength lies in [0, 1] |
| PositionAnalysis.SheetResultsMeaning | futures_position_analysis.py:314-330 | every result comes from a sheet; every sheet that processes gives its result under `exchange_contract` |
| PositionAnalysis.AnalyzeAllPositions | futures_position_analysis.py:301-332 | the loops collect the results of every exchange's sheets |
| PositionAnalysis.AnalyzeWorkbook | futures_position_analysis.py:314-330 | the sheet loop collects the results of one workbook |
| PositionAnalysis.AnalyzeSheet | futures_position_analysis.py:315-330 | the loop body yields the specified result of one sheet: nothing when its table does not process |
| PositionAnalysis.HandleSheets | futures_position_analysis.py:200-203 | every sheet written under its exchange's handler: as is for the first three exchanges, cleaned for the Shanghai and Guangzhou ones |
| PositionAnalysis.FetchData | futures_position_analysis.py:181-208 | true iff every exchange delivered data and had it written; the sink holds the workbooks of the exchanges that did |
| PositionAnalysis.WrittenDespiteFailures | futures_position_analysis.py:188-205 | an exchange with data whose write goes through is written whatever happened before it, with its handled sheets |
| PositionAnalysis.NothingForFailures | futures_position_analysis.py:193-206 | no workbook for an exchange whose call raised, gave nothing, or whose write raised |
| PositionAnalysis.ExchangeFilesDistinct | futures_position_analysis.py:150-176 | the exchange file names differ |
| PositionAnalysis.SignalCountsWithinTotal | futures_position_analysis.py:397 | long + short signals of a strategy never exceed the total, so the neutral count is never negative |
| PositionAnalysis.Predict | futures_position_analysis.py:562-570 | bullish iff share > 0.7, cautious bullish iff in (0.5, 0.7], cautious bearish iff in (0.3, 0.5], bearish iff <= 0.3 |
| PositionAnalysis.PredictMonotone | futures_position_analysis.py:562-570 | a larger bullish share never gives a more bearish forecast |
| PositionAnalysis.LongRatioBound | futures_position_analysis.py:560-562 | the bullish share lies in [0, 1] |
| PositionAnalysis.TopContracts | futures_position_analysis.py:535-545 | exactly the contracts of the first ten signals |
| PositionAnalysis.TopContractsSize | futures_position_analysis.py:535-545 | at most ten contracts |
| PositionAnalysis.OpportunitiesSize | futures_position_analysis.py:576-583 | at most ten opportunities per direction |
| PositionAnalysis.OpportunitiesMeaning | futures_position_analysis.py:576-583 | an opportunity is a contract on which both strategies gave that direction |
| PositionAnalysis.InTopGave | futures_position_analysis.py:535-545 | a contract in a strategy's top ten was given that direction by that strategy |
| PositionAnalysis.DateInputAccepted | futures_position_analysis.py:610 | accepted exactly when the input is eight ASCII digits |
| PositionAnalysis.DateInputAcceptsFormatted | futures_position_analysis.py:610 | every formatted date is accepted |
| RetailReverse.ProcessPositionData | retail_reverse_strategy.py:43-68 | `None` iff a column is missing after the two-column rename; otherwise every row, parsed |
| RetailReverse.KeepsAtLeastTopRanks | retail_reverse_strategy.py:43-68 | accepted iff the stand-alone analyser accepts, whose rows are the first min(n, 20) of these |
| RetailReverse.ActivityRatio | retail_reverse_strategy.py:31-33 | never negative, and 0 unless open interest is positive |
| RetailReverse.Analysis | retail_reverse_strategy.py:9-41 | no details iff no changed seat; all changed seats adding longs is bearish, else all adding shorts bullish, strength the activity ratio; else neutral 0 |
| RetailReverse.SameDirectionAsPositionAnalysis | retail_reverse_strategy.py:29-39 | the direction equals the stand-alone analyser's on the same rows |
| RetailReverse.Analyze | retail_reverse_strategy.py:9-41 | the accumulation and seat loops compute the analysis |
| RetailReverse.SumActivity | retail_reverse_strategy.py:31-32 | the loop sums \|long change\| + \|short change\| of the changed seats |
| RetailReverse.ActivityPositive | retail_reverse_strategy.py:20-33 | changed seats always have positive activity |
| RetailReverse.DirectionalStrengthPositive | retail_reverse_strategy.py:31-39 | a directional signal on positive open interest has positive strength |
| RetailReverse.RetailRatioIsPositionAnalysisStrength | retail_reverse_strategy.py:90-111 | the reported retail ratio equals the stand-alone analyser's retail strength |
| RetailReverse.RetailRatioBound | retail_reverse_strategy.py:90-111 | the retail ratio lies in [0, 1] |
| RetailReverse.AnalyzeAllPositions | retail_reverse_strategy.py:70-120 | the loops collect the results of every exchange's sheets |
| RetailReverse.NeutralCountNonNegative | retail_reverse_strategy.py:167 | long + short counts never exceed the total |
| Utils.SymbolPart | utils.py:164-170 | upper-case letters only, no longer than the contract; its content is stated by SymbolPartSnoc |
| Utils.SymbolPartSnoc | utils.py:164-170 | read character by character: `_` starts the part afresh, a letter is appended upper-cased, anything else is skipped |
| Utils.SymbolPartOfTail | utils.py:164-170 | after the last `_`, or in a contract without one, the symbol is that part's letters in order, upper-cased |
| Utils.ExtractSymbolFromContract | utils.py:160-173 | the symbol part when it is non-empty, else the contract itself |
| Utils.ExtractSymbolOfCode | utils.py:160-173 | `PREFIX_letters+digits` gives the letters upper-cased |
| Utils.ExtractSymbolOfBareCode | utils.py:160-173 | a code without `_`, such as `rb2501`, gives its letters upper-cased |
| Utils.ExtractSymbolIdempotent | utils.py:160-173 | extracting twice is extracting once |
| Utils.ExtractVarietyIsSymbolButTa | utils.py:329-362 | only a longer `TA...` symbol is changed, to `TA` |
| Utils.ExtractVarietyAgreesWithSymbol | utils.py:329-362 | the variety is upper-case letters, equal to the extracted symbol unless empty or `TA` |
| Utils.Decimal | utils.py:381 | a digit text parses to its value |
| Utils.CleanNumericString | utils.py:364-383 | ints and floats pass through unchanged (text handling in the next three rows) |
| Utils.CleanNumericOfIntText | utils.py:364-383 | the text of an integer gives the integer |
| Utils.CleanNumericOfPlainText | utils.py:375-381 | clean text parses as it stands |
| Utils.CleanNumericOfNullText | utils.py:378-379 | blank and null spellings give 0 |
| Utils.SafeDivide | utils.py:201-208 | the default when the denominator is 0, else r with r * denominator = numerator |
| Utils.PercentageChange | utils.py:187-199 | 0 from a zero base, else p with old + old * p / 100 = new |
| Utils.Slice | utils.py:213 | a prefix of the length Python's `s[:n]` gives for any integer n |
| Utils.FilterTopN | utils.py:210-215 | a sub-multiset of the input, of length min(n, len) for n >= 0 |
| Utils.FilterTopNOrdered | utils.py:210-215 | ordered by the key (missing key 0, direction by `reverse`); the records of any key value keep their input order |
| Utils.FilterTopNKeepsTop | utils.py:210-215 | the top records are kept: every dropped record (counting repeats) ranks no higher under `reverse`'s order than any kept one |
| Utils.SetSizeDistinct | utils.py:398 | `len(s) == len(set(s))` iff no element repeats |
| Utils.AllNamed | utils.py:402-404 | every seat has a non-blank strip |
| Utils.ValidateRetailSeats | utils.py:385-406 | true iff non-empty, no duplicates, and no blank name |
| Utils.DefaultSeatsValid | utils.py:385-406 | the configured default seats are valid |
| Utils.WeekdaysFrom | utils.py:119-125 | valid weekdays within [d, e], strictly increasing |
| Utils.Formats | utils.py:124 | each date formatted, in order |
| Utils.WeekdaysFromComplete | utils.py:119-125 | every weekday in [d, e] is listed |
| Utils.TradingDatesDistinct | utils.py:112-130 | no trading date is listed twice |
| Utils.TradingDatesComplete | utils.py:112-130 | every weekday between two parsed dates (the end not the last date) is listed |
| Utils.GetTradingDates | utils.py:112-130 | the method computes the trading dates: `[]` on a parse failure or overflow, else the formatted weekdays |
| Utils.WalkWeekdays | utils.py:119-127 | `None` when the end is the last date (the step past it raises), otherwise exactly the formatted weekdays of [start, end] |
| Utils.RetryOnFailure | utils.py:258-277 | nothing called or raised for max_retries <= 0; otherwise at most max_retries calls, all but the last failed; returns the last call's value iff it succeeded, else re-raises its error after max_retries calls; one pause between consecutive calls |
| AppStreamlit.TermStructureWithPrices | app_streamlit.py:94-141 | nothing without the three columns; every curve has two or more contracts, positive closes, symbol order and the strict label, its contracts and closes being exactly its variety's positive-close rows, each once; no variety twice |
| AppStreamlit.TermStructureWithPricesComplete | app_streamlit.py:94-141 | both directions: a variety has a curve iff the frame has the three columns and the variety has two or more positive-close rows |
| AppStreamlit.CurvesWellFormed | app_streamlit.py:104-135 | every curve well formed (as above, made of exactly its variety's positive-close rows) for a listed variety, varieties distinct |
| AppStreamlit.KeptArePriced | app_streamlit.py:107-114 | sorting by symbol before filtering keeps exactly the variety's positive-close rows |
| AppStreamlit.CurvesOfComplete | app_streamlit.py:104-135 | every listed variety with two or more positive-close rows gets its curve |
| AppStreamlit.AnalyzeTermStructureWithPrices | app_streamlit.py:94-141 | the variety loop computes the curves |
| AppStreamlit.ChangedStatsMeaning | app_streamlit.py:161-173 | every entry is a watched seat with non-zero change and its four figures; every such seat is listed |
| AppStreamlit.AggregateVerdict | app_streamlit.py:185-194 | bearish iff the details add longs and not shorts in total, strength long share of the table; bullish the converse, short share; else neutral 0 |
| AppStreamlit.AnalyzeRetailReverse | app_streamlit.py:144-197 | the method computes the specified outcome: details and aggregate verdict |
| AppStreamlit.CollectChangedStats | app_streamlit.py:161-173 | the loop keeps exactly the changed seats |
| AppStreamlit.SumStats | app_streamlit.py:176-183 | the four sums over the details |
| AppStreamlit.ChangedHoldingsBound | app_streamlit.py:176-183 | the changed seats hold between 0 and what all watched seats hold |
| AppStreamlit.AggregateStrengthBound | app_streamlit.py:185-194 | the strength lies in [0, 1] |
| AppStreamlit.ExtractSymbolMeaning | app_streamlit.py:737-766 | `TA` for a longer `TA...` symbol, else the upper-cased letters; empty iff no letters |
| AppStreamlit.SymbolSetMeaning | app_streamlit.py:782-800 | exactly the non-empty codes of the top-ten contracts |
| AppStreamlit.CollectCodes | app_streamlit.py:790-795 | the loop collects exactly the set of non-empty codes of the list's entries |
| AppStreamlit.CountSymbols | app_streamlit.py:822-839 | the counting loops yield the specified per-code entries |
| AppStreamlit.SignalResonance | app_streamlit.py:773-843 | both directions: the per-code entries of the top tens, cut to codes of two strategies |
| AppStreamlit.CollectTops | app_streamlit.py:773-807 | per direction, each strategy's set of codes among its first ten signals, in strategy order |
| AppStreamlit.CountStrategy | app_streamlit.py:827-831 | folding one strategy's codes into the counts gives the specified counts |
| AppStreamlit.NamingMeaning | app_streamlit.py:822-839 | a code's entry names exactly the strategies with the code in their set, at most one per strategy |
| AppStreamlit.NamingCount | app_streamlit.py:822-839 | named at least once iff a strategy has the code; at least twice iff two strategies do |
| AppStreamlit.CommonMeaning | app_streamlit.py:842-843 | a code is reported iff two different strategies name it; its count never exceeds the number of strategies |
| AppStreamlitOptimized.EndpointStructure | app_streamlit_optimized.py:173-178 | for a non-empty curve: back iff first > last, contango iff first < last, otherwise flat |
| AppStreamlitOptimized.EndpointRefinesStrict | app_streamlit_optimized.py:173-178 | agrees with the strict rule on monotone curves |
| AppStreamlitOptimized.EndpointCanDisagree | app_streamlit_optimized.py:173-178 | a rising-then-falling curve is back here, flat under the strict rule |
| AppStreamlitOptimized.TermStructureSimple | app_streamlit_optimized.py:144-186 | nothing for an empty frame or missing column; else at most ten curves, for the first ten varieties, no variety twice, each with two or more contracts, positive closes, symbol order and the endpoint label, made of exactly its variety's positive-close rows |
| AppStreamlitOptimized.TermStructureSimpleComplete | app_streamlit_optimized.py:144-186 | both directions: a variety has a curve iff the frame has the three columns and the variety is among the first ten and has two or more positive-close rows |
| AppStreamlitOptimized.CurveOfWellFormed | app_streamlit_optimized.py:159-180 | the curve of a variety is well formed and made of exactly its positive-close rows |
| AppStreamlitOptimized.CurvesWellFormed | app_streamlit_optimized.py:156-182 | every curve of distinct listed varieties is well formed, varieties distinct |
| AppStreamlitOptimized.CurvesOfComplete | app_streamlit_optimized.py:156-182 | every listed variety with two or more positive-close rows gets its curve |
| AppStreamlitOptimized.FirstVarieties | app_streamlit_optimized.py:156 | the first ten varieties hold no variety twice |
| AppStreamlitOptimized.AgreesWithFullPageWhenMonotone | app_streamlit_optimized.py:173-178 | the same verdict as the full page where that page finds the curve monotone |
| AppStreamlitOptimized.AnalyzeTermStructureSimple | app_streamlit_optimized.py:144-186 | the method computes the specified curves |
| AppStreamlitOptimized.AnalyzeVarieties | app_streamlit_optimized.py:158-180 | the variety loop yields the specified curves, in order |
| AppStreamlitOptimized.BuildCurve | app_streamlit_optimized.py:159-180 | the loop body yields the specified curve of one variety |
| AppStreamlitOptimized.ExtractSymbolMeaning | app_streamlit_optimized.py:561-572 | `None` exactly when no letter follows the last `_`; otherwise the code `extract_symbol_from_contract` finds |
| AppStreamlitOptimized.ExtractSymbolAgainstFullPage | app_streamlit_optimized.py:561-572 | the full page's code unless that page folded it to `TA` |
| AppStreamlitOptimized.DirectionMentionsBound | app_streamlit_optimized.py:578-590 | at most ten mentions per strategy and direction |
| AppStreamlitOptimized.TallyList | app_streamlit_optimized.py:578-590 | the tally after a list equals the tally of all mentions so far plus that list's |
| AppStreamlitOptimized.SignalResonance | app_streamlit_optimized.py:575-596 | the counting loop and the cut to count >= 2 |
| AppStreamlitOptimized.CountMentions | app_streamlit_optimized.py:575-593 | each count is the tally of that direction's first-ten mentions, strategy by strategy |
| AppStreamlitOptimized.ResonanceMeaning | app_streamlit_optimized.py:575-596 | reported iff mentioned at least twice; count = mentions = length of the strategy list |
| AppStreamlitOptimized.TwoMentions | app_streamlit_optimized.py:578-590 | two `rb` contracts in one list give two `RB` mentions |
| AppStreamlitOptimized.OneStrategyCanResonate | app_streamlit_optimized.py:575-596 | one strategy listing two `rb` contracts makes `RB` resonate |
| TermStructureReport.ClassifyIsStrict | analyze_term_structure.py:102-110 | with every close present, the strict rule |
| TermStructureReport.MissingCloseIsFlat | analyze_term_structure.py:102-110 | one missing close makes the curve flat |
| TermStructureReport.CloseCells | analyze_term_structure.py:95 | the close column, aligned with the rows |
| TermStructureReport.TermStructure | analyze_term_structure.py:60-121 | nothing when a column is missing; each curve is all of its variety's rows exactly once, in symbol order, with the closes as read and the strict label; no variety twice |
| TermStructureReport.CurvesWellFormed | analyze_term_structure.py:83-110 | every curve is a permutation of its listed variety's rows in symbol order, varieties distinct |
| TermStructureReport.DrawnSize | analyze_term_structure.py:86-99 | a curve has one contract and one close per row of its variety |
| TermStructureReport.CurvesOfComplete | analyze_term_structure.py:83-99 | every listed variety with two or more rows gets its curve |
| TermStructureReport.TermStructureComplete | analyze_term_structure.py:60-99 | a variety has a curve iff the three columns are present and it has two or more rows |
| TermStructureReport.DetermineStructure | analyze_term_structure.py:102-110 | the one-pass flags give the classification |
| TermStructureReport.BuildCurve | analyze_term_structure.py:86-110 | the loop body yields the specified curve of one variety |
| TermStructureReport.AnalyzeTermStructure | analyze_term_structure.py:60-121 | the method computes the specified curves |
| TermStructureReport.AnalyzeVarieties | analyze_term_structure.py:83-98 | the variety loop yields the specified curves, in order |
| TermStructureReport.AnalyzeFiles | analyze_term_structure.py:123-186 | the loop collects the results of every workbook, in order |
| TermStructureReport.WithStructure | analyze_term_structure.py:134-136 | no longer than the results |
| TermStructureReport.WithStructureMeaning | analyze_term_structure.py:134-136 | a section lists exactly the results with its structure |
| TermStructureReport.ReportPartitions | analyze_term_structure.py:134-136 | the three sections together are a permutation of the results |
| TermStructureReport.ReportCounts | analyze_term_structure.py:180-183 | the three counts sum to the total |
| TermStructureReport.ReportFileName | analyze_term_structure.py:127 | the prefix `term_structure_analysis_`, then the start date, `_`, the end date and `.txt`, each read back from its place in the name |
| HoldPos.Stamp | integrated_data_fetcher.py:257-260 | one record per row, with its rank, member and figures, tagged with the position type and symbol |
| HoldPos.Concat | integrated_data_fetcher.py:289 | exactly the records of the frames |
| HoldPos.SymbolsOf | integrated_data_fetcher.py:294 | no symbol twice, and exactly the symbols of the records |
| HoldPos.OfSymbol | integrated_data_fetcher.py:295 | exactly the records of that symbol |
| HoldPos.OfKind | integrated_data_fetcher.py:302-304 | exactly the records of that position type |
| HoldPos.SheetName | integrated_data_fetcher.py:298-299 | the known name, or the code itself, then `(`, the code and `)`, each read back from its place |
| HoldPos.FirstHit | integrated_data_fetcher.py:238-263 | the first attempt from k below three that gives rows; none iff no such attempt |
| HoldPos.Attempts | integrated_data_fetcher.py:238-263 | between one and three calls |
| HoldPos.Collected | integrated_data_fetcher.py:237-272 | a table is kept for exactly the position types with an answer among the three attempts |
| HoldPos.CollectedValue | integrated_data_fetcher.py:237-272 | a kept table is the first non-empty answer of its type |
| HoldPos.FetchType | integrated_data_fetcher.py:238-270 | the retry loop returns the first answer with rows, with the attempts it cost |
| HoldPos.FetchSingleContract | integrated_data_fetcher.py:222-272 | the kept tables are the specified ones; at most three calls per position type |
| HoldPos.FirstOf | sina_position_fetcher.py:220-240 | a row of the member when it has one, none otherwise |
| HoldPos.FirstOfMeaning | sina_position_fetcher.py:220-240 | `iloc[0]`: the row found sits at an index with no earlier row of the member; none exactly when no row is the member's |
| HoldPos.LastOf | integrated_data_fetcher.py:328-339 | a row of the member when it has one, none otherwise |
| HoldPos.LastOfMeaning | integrated_data_fetcher.py:328-339 | the `dict(zip(...))` entry: the row kept sits at an index with no later row of the member; none exactly when no row is the member's |
| IntegratedFetcher.LetterRun | integrated_data_fetcher.py:154 | a prefix of letters, not followed by a letter |
| IntegratedFetcher.DigitRun | integrated_data_fetcher.py:154 | a prefix of digits, not followed by a digit |
| IntegratedFetcher.FixContractCode | integrated_data_fetcher.py:138-166 | empty stays empty; a changed code is its letter run plus four digits long |
| IntegratedFetcher.FixThreeDigitCode | integrated_data_fetcher.py:154-162 | letters and three digits become upper letters, `2`, digits; the rest dropped |
| IntegratedFetcher.FixFourDigitCode | integrated_data_fetcher.py:161-164 | a code with four digits is left alone |
| IntegratedFetcher.FixContractCodeIdempotent | integrated_data_fetcher.py:154-164 | fixing twice is fixing once |
| IntegratedFetcher.MainMonths | integrated_data_fetcher.py:185-200 | index futures take the trade month; every other variety a listed month list |
| IntegratedFetcher.YearSuffix | integrated_data_fetcher.py:203 | one or two digits reading as the year modulo 100; two digits from year 10 on |
| IntegratedFetcher.FirstMonthFrom | integrated_data_fetcher.py:205-209 | the first listed month not before the trade month; none iff all are before |
| IntegratedFetcher.ChosenMonth | integrated_data_fetcher.py:195-213 | a month in 1..12 |
| IntegratedFetcher.MainContract | integrated_data_fetcher.py:168-220 | `None` iff the date does not parse; else the symbol, then digits for the chosen year modulo 100, then the chosen month in two digits |
| IntegratedFetcher.ChosenMonthMeaning | integrated_data_fetcher.py:195-213 | index futures take the trade month; others the earliest listed month not before it this year, else next year's earliest |
| IntegratedFetcher.MainContractNeedsNoFix | integrated_data_fetcher.py:138-220 | for upper-case symbols and years from 10 on, the fix leaves the main contract alone |
| IntegratedFetcher.SelectMainMonth | integrated_data_fetcher.py:205-213 | the month loop finds the first listed month not before the trade month |
| IntegratedFetcher.GetMainContractFromSymbol | integrated_data_fetcher.py:168-220 | the method computes the main contract |
| IntegratedFetcher.SelectYearMonth | integrated_data_fetcher.py:195-213 | the year and month step computes the chosen month |
| IntegratedFetcher.Merge | integrated_data_fetcher.py:311-341 | one row per base row, with its rank and member, long figures only from a long base |
| IntegratedFetcher.MergeShortFigures | integrated_data_fetcher.py:327-341 | an absent member gets zero short and volume figures; a present one its last short row |
| IntegratedFetcher.SheetOf | integrated_data_fetcher.py:307-357 | nothing iff all three tables are empty; else the named sheet with 1 to 20 rows |
| IntegratedFetcher.SheetOfRows | integrated_data_fetcher.py:311-354 | the rows are the first min(n, 20) of the base table (long, else short, else volume), rank and member kept |
| IntegratedFetcher.SymbolSheet | integrated_data_fetcher.py:294-357 | a sheet is named `name(code)` and has 1 to 20 rows |
| IntegratedFetcher.SymbolSheetPresent | integrated_data_fetcher.py:307-357 | a variety with a row gets a sheet |
| IntegratedFetcher.Present | integrated_data_fetcher.py:356-357 | no more sheets than entries |
| IntegratedFetcher.PresentAll | integrated_data_fetcher.py:356-357 | with nothing missing, every entry kept |
| IntegratedFetcher.Convert | integrated_data_fetcher.py:274-359 | no frames give no sheets; otherwise at most one per variety |
| IntegratedFetcher.ConvertMeaning | integrated_data_fetcher.py:274-359 | one sheet per variety, in order of first appearance: its sheet, named `name(code)`, 1 to 20 rows |
| IntegratedFetcher.ConvertToExchangeFormat | integrated_data_fetcher.py:274-359 | the method computes the specified sheets |
| IntegratedFetcher.Cleaned | integrated_data_fetcher.py:436-440 | each sheet under its cleaned name, rows kept |
| IntegratedFetcher.Successes | integrated_data_fetcher.py:472-490 | at most n |
| IntegratedFetcher.FetchAllExchangesData | integrated_data_fetcher.py:446-499 | true iff at least three exchanges had data (a failed save still counts); the disk holds the specified workbooks |
| IntegratedFetcher.SuccessesCount | integrated_data_fetcher.py:472-490 | the count is the number of exchanges with data |
| IntegratedFetcher.WrittenContents | integrated_data_fetcher.py:421-444 | a workbook only for an exchange with data whose write went through, holding the cleaned sheets |
| IntegratedFetcher.WorkbookFilesDistinct | integrated_data_fetcher.py:461-467 | two exchanges share a file name iff they are the same |
| SinaFetcher.Members | sina_position_fetcher.py:212-213 | the member column, in row order |
| SinaFetcher.SeatsMeaning | sina_position_fetcher.py:211-216 | each member with a row once, in string order |
| SinaFetcher.SeatRow | sina_position_fetcher.py:217-240 | the row has the given rank and seat |
| SinaFetcher.SeatRowFigures | sina_position_fetcher.py:219-240 | each figure is that of the seat's first row of the type, or 0 when it has none |
| SinaFetcher.SeatRows | sina_position_fetcher.py:216-242 | one row per seat, ranked 1, 2, ... |
| SinaFetcher.SymbolSheet | sina_position_fetcher.py:199-245 | a sheet is named `name(code)` and has 1 to 20 rows |
| SinaFetcher.SymbolSheetMeaning | sina_position_fetcher.py:199-245 | a variety with rows gets a sheet of min(members, 20) rows ranked 1.., members distinct, in string order, none listed before a dropped one |
| SinaFetcher.Convert | sina_position_fetcher.py:179-247 | no frames give no sheets; otherwise at most one per variety |
| SinaFetcher.ConvertMeaning | sina_position_fetcher.py:179-247 | one sheet per variety, in order of first appearance, named `name(code)` |
| SinaFetcher.BuildSeatRows | sina_position_fetcher.py:216-242 | the seat loop builds the rows of the first twenty seats |
| SinaFetcher.BuildSheet | sina_position_fetcher.py:208-245 | the loop body yields the specified sheet |
| SinaFetcher.ConvertToExchangeFormat | sina_position_fetcher.py:179-247 | the method computes the specified sheets |
| SinaFetcher.CollectSheets | sina_position_fetcher.py:199-245 | the variety loop keeps the sheets that were built |
| CloudFetcher.ExtraWaits | cloud_data_fetcher.py:89-94 | at most one extra pause |
| CloudFetcher.ExtraWaitsMeaning | cloud_data_fetcher.py:89-94 | 5 s iff the lowered message has `timeout`; 10 s iff not that but `rate limit`; 3 s iff neither but `connection`; none otherwise |
| CloudFetcher.FirstAnswer | cloud_data_fetcher.py:45-73 | the first attempt from k below n that returned a value; none iff there is none |
| CloudFetcher.Calls | cloud_data_fetcher.py:45-96 | at most n calls, and at least one when n > 0 |
| CloudFetcher.SafeResult | cloud_data_fetcher.py:45-96 | a value iff one of the n attempts returned one |
| CloudFetcher.Waits | cloud_data_fetcher.py:48-94 | at most two pauses per attempt |
| CloudFetcher.WaitsWithoutErrors | cloud_data_fetcher.py:48-49 | without exceptions the pauses are delay, 2 delay, ..., one fewer than the calls |
| CloudFetcher.SafeResultMeaning | cloud_data_fetcher.py:45-96 | the value is the last call's, every earlier call missed; without a value all n calls were made |
| CloudFetcher.Run | cloud_data_fetcher.py:159-208 | never more saved exchanges than turns |
| CloudFetcher.RunSaved | cloud_data_fetcher.py:179-189 | the count is the number of turns that saved; positive iff one did |
| CloudFetcher.RunDisk | cloud_data_fetcher.py:179-189 | a workbook is on disk iff its turn wrote one, with that turn's contents |
| CloudFetcher.FallbackTurnMeaning | cloud_data_fetcher.py:163-208 | saved iff the call (two attempts for GFEX) gave non-empty tables and the write succeeded; the workbook is their cleaned sheets |
| CloudFetcher.AutoSkipTurnMeaning | cloud_data_fetcher.py:604-701 | saved iff tables came (GFEX: thread finished, one attempt) and the write succeeded; a workbook not saved is a GFEX placeholder |
| CloudFetcher.CloudDataFetcher.constructor | cloud_data_fetcher.py:25-29 | three retries, 30 s timeout, 2 s delay |
| CloudFetcher.CloudDataFetcher.SafeAkshareCall | cloud_data_fetcher.py:43-96 | the specified result, calls (at most `maxRetries`) and pauses |
| CloudFetcher.CloudDataFetcher.FallbackExchange | cloud_data_fetcher.py:159-208 | the specified fallback turn; `maxRetries` restored |
| CloudFetcher.CloudDataFetcher.FetchPositionDataWithFallback | cloud_data_fetcher.py:98-222 | true iff at least one exchange saved; disk and pauses those of the five turns; `maxRetries` restored |
| CloudFetcher.CloudDataFetcher.AutoSkipExchange | cloud_data_fetcher.py:604-701 | the specified skip turn; `maxRetries` restored in every case |
| CloudFetcher.CloudDataFetcher.FetchPositionDataWithAutoSkip | cloud_data_fetcher.py:536-715 | true iff at least one exchange saved (placeholders do not count); disk and pauses those of the five turns; `maxRetries` restored |

## Left out

- Streamlit rendering, charts, session state, progress callbacks and all console
  and log output: they only display results.
- Network calls (akshare, requests): each is an oracle parameter giving the
  outcome of every attempt.
- Excel and text file reading and writing: the model writes to a sink (a map
  from file name to its sheets). Whether each data write goes through is an
  oracle parameter; a failed write leaves the sink unchanged, so a partly
  written workbook is not modelled.
  The cloud fetcher's placeholder workbook write is assumed to succeed.
- Threads, `queue` timeouts and `signal.alarm`: whether the GFEX thread
  finished is a parameter. The calls and pauses of an unfinished thread are
  not tracked.
- Wall-clock timing and the `random.uniform` jitter sleeps of the hold-position
  fetchers.
- Character classes: letters, digits and case mapping are ASCII. Python's
  Unicode `isalpha`, `\d` and `upper()` accept more characters.
- Float parsing: numeric cells parse integers, optionally followed by `.` and
  zeros. `Utils.CleanNumericString` parses plain decimals. Exponents, `inf`
  and `nan` spellings are not modelled. Nor are the underscores `float()`
  accepts between digits: `"1_000"` is 1000.0 in Python, but
  `Utils.CleanNumericString` gives 0.0 for it.
- Trailing newline in contract codes: `re.search(r'(\d{4})$', symbol)` also
  matches before one final newline, so `"rb2405\n"` has the month key 202405.
  `FuturesAnalyzer.MonthKey` gives such a symbol the undated key 999999.
- NaN arithmetic: only the spider-web stat `(long + short) / vol` is modelled
  with IEEE values. A seat with `vol == 0` gets `+inf` or `-inf` by the sign of
  `long + short`, or NaN when that is 0 too; the stat sorts `+inf`, finite,
  `-inf`, NaN last. A seat whose `long + short` is 0 has no imbalance
  (`PositionAnalysis.Imbalances` skips it, as `mean()` skips NaN). With
  negative holdings that zero total could divide a non-zero difference and
  give an infinite imbalance; that case is not modelled.
- The term-structure report reads only the first sheet of each price workbook,
  as `pd.read_excel(file_path)` does. The model's table is that sheet, and the
  other varieties' sheets are not read.
- Sorting: pandas' `sort_values` (quicksort) is modelled by a stable sort,
  which is one of its possible outcomes.
- Duplicate sheet names within one dict: the model keeps sheets as a list of
  distinct-named entries.
- The truthiness of a whole DataFrame (`if df:` raising) is not modelled.
- Glue code that only calls the modelled parts:
  - `fetch_exchange_data`, `get_main_contract_from_basis` and `fetch_price_data`
    of the fetchers;
  - `load_position_data`, `full_analysis` and `_analyze_positions` of
    futures_analyzer.py. The per-contract results they produce
    (`ContractResult`) are an input of `FuturesAnalyzer.GenerateSummary`.
- `fetch_position_data_skip_gfex` of cloud_data_fetcher.py:435-535: a
  sequential variant of the fallback loop over the four other exchanges. It
  never asks the Guangzhou exchange and always writes its `空数据` placeholder
  workbook.
- The Guangzhou thread of futures_analyzer.py:139-184: part of the price fetch
  `fetch_price_data`, which is not modelled.
- Exception paths that produce `错误` results, and `analyze_term_structure`
  returning `[]` on an exception: the model's operations do not raise.
- The text of `generate_report` / `generate_analysis_report_txt`: only the
  partitioning, counts, forecast thresholds and opportunity sets are modelled.
- AppStreamlit.CommonMeaning: stated over any list of top-ten lists rather than
  over the per-index form the page computes. That form ran out of solver
  resources.
- IntegratedFetcher.MainContractNeedsNoFix: holds only from year 10 on. For
  earlier years the month code has three digits and the fix would change it.
- FuturesAnalyzer.ValidateTradeDate: its ensures states only that an accepted
  text starts with four year digits. The accepted dates are characterised by
  `FuturesAnalyzer.TradeDateAcceptsFormatted` and
  `Calendar.ParseFormatRoundTrip`.
- Calendar.ParseYmd: its ensures states only that a parsed date is valid. The
  link to `Calendar.FormatYmd` is `Calendar.ParseFormatRoundTrip`.
