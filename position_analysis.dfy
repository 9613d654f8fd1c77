/**
 * `futures_position_analysis.py`: the stand-alone analyser. Its table
 * normalisation keeps the first 20 ranks; its strategies differ from the
 * engine's in strength formulas, eligibility and thresholds; its download
 * succeeds only when every exchange delivers; its text report predicts the
 * market from the spider-web signals and intersects the two strategies'
 * top ten.
 */
module PositionAnalysis {
  import opened Wrappers
  import Text
  import Sorting
  import Position
  import Signals
  import Sheets
  import Calendar
  import FuturesAnalyzer

  // ----- normalisation -----

  /** How many ranks the analyser keeps (`df.head(20)`). */
  const TopRanks: nat := 20

  /** The Zhengzhou names are mapped only when both party columns are present. */
  function StandardizeColumns(t: Position.RawTable): (r: Position.RawTable)
    ensures !(Position.HasColumn(t, "g_party_n") && Position.HasColumn(t, "t_party_n")) ==> r == t
    ensures r.height == t.height
  {
    if Position.HasColumn(t, "g_party_n") && Position.HasColumn(t, "t_party_n") then Position.Rename(t, Position.ZceRenames)
    else t
  }

  function Min(a: nat, b: nat): nat { if a < b then a else b }

  /**
   * `process_position_data`: `None` unless the seven columns exist after
   * normalisation; otherwise the first 20 rows, parsed, with totals over
   * exactly those rows.
   */
  function ProcessPositionData(t: Position.RawTable): (r: Option<Position.PositionSummary>)
    ensures r.None? <==> !Position.HasRequiredColumns(StandardizeColumns(t))
    ensures r.Some? ==> (|r.value.rows| == Min(t.height, TopRanks) &&
      forall i :: 0 <= i < |r.value.rows| ==> r.value.rows[i] == Position.RowAt(StandardizeColumns(t), i))
    ensures r.Some? ==>
      r.value.totalLong == Position.Total(r.value.rows, Position.LongOI) &&
      r.value.totalShort == Position.Total(r.value.rows, Position.ShortOI) &&
      r.value.totalLongChg == Position.Total(r.value.rows, Position.LongChg) &&
      r.value.totalShortChg == Position.Total(r.value.rows, Position.ShortChg)
  {
    var std := StandardizeColumns(t);
    if !Position.HasRequiredColumns(std) then None
    else
      var rows := Position.ParseRows(std, Min(std.height, TopRanks));
      Some(Position.PositionSummary(rows,
        Position.Total(rows, Position.LongOI), Position.Total(rows, Position.ShortOI),
        Position.Total(rows, Position.LongChg), Position.Total(rows, Position.ShortChg)))
  }

  /** The 20-rank cut: on a table of at most 20 rows this analyser and the engine agree. */
  lemma ShortTableAgreesWithEngine(t: Position.RawTable)
    requires t.height <= TopRanks
    requires Position.HasColumn(t, "g_party_n") <==> Position.HasColumn(t, "t_party_n")
    ensures ProcessPositionData(t) == FuturesAnalyzer.ProcessPositionData(t)
  {
  }

  // ----- power change -----

  /** `PowerChangeStrategy`: the engine's sign rule, but only the growing side's change as strength. */
  function PowerChange(longChg: int, shortChg: int): (v: Signals.Verdict)
    ensures v.direction == Signals.Bullish <==> longChg > 0 && shortChg < 0
    ensures v.direction == Signals.Bearish <==> longChg < 0 && shortChg > 0
    ensures v.direction == Signals.Bullish ==> v.strength == longChg as real
    ensures v.direction == Signals.Bearish ==> v.strength == shortChg as real
    ensures v.direction != Signals.Bullish && v.direction != Signals.Bearish ==> v == Signals.Verdict(Signals.Neutral, 0.0)
  {
    if longChg > 0 && shortChg < 0 then Signals.Verdict(Signals.Bullish, FuturesAnalyzer.Abs(longChg) as real)
    else if longChg < 0 && shortChg > 0 then Signals.Verdict(Signals.Bearish, FuturesAnalyzer.Abs(shortChg) as real)
    else Signals.Verdict(Signals.Neutral, 0.0)
  }

  /** Same direction as the engine's power change, never a larger strength. */
  lemma PowerChangeWithinEngine(longChg: int, shortChg: int)
    ensures PowerChange(longChg, shortChg).direction == FuturesAnalyzer.AnalyzePowerChange(longChg, shortChg).direction
    ensures 0.0 <= PowerChange(longChg, shortChg).strength <= FuturesAnalyzer.AnalyzePowerChange(longChg, shortChg).strength
  {
  }

  /** Swapping the two sides swaps the direction and keeps the strength. */
  lemma PowerChangeSwap(longChg: int, shortChg: int)
    ensures PowerChange(shortChg, longChg) ==
      PowerChange(longChg, shortChg).(direction := FuturesAnalyzer.Opposite(PowerChange(longChg, shortChg).direction))
  {
  }

  // ----- spider web -----

  /** A seat enters this spider web with volume and both holdings present, whatever their sign. */
  predicate Valid(r: Position.SeatRow)
  {
    r.vol.Some? && r.longOI.Some? && r.shortOI.Some?
  }

  function ValidRows(rows: seq<Position.SeatRow>): (e: seq<Position.SeatRow>)
    ensures forall x :: x in e <==> x in rows && Valid(x)
    ensures |e| <= |rows|
  {
    if rows == [] then []
    else (if Valid(rows[0]) then [rows[0]] else []) + ValidRows(rows[1..])
  }

  /**
   * The value of `(long + short) / vol` as pandas orders it: a zero volume
   * gives an infinity of the sign of the numerator, or NaN when that is 0 too.
   */
  datatype Stat = PlusInfinity | Finite(value: real) | MinusInfinity | NotANumber

  function StatOf(r: Position.SeatRow): Stat
  {
    var total := Position.Lots(r.longOI) + Position.Lots(r.shortOI);
    var vol := Position.Lots(r.vol);
    if vol != 0 then Finite(total as real / vol as real)
    else if total > 0 then PlusInfinity
    else if total < 0 then MinusInfinity
    else NotANumber
  }

  function Rank(s: Stat): nat
  {
    match s
    case PlusInfinity => 0
    case Finite(_) => 1
    case MinusInfinity => 2
    case NotANumber => 3
  }

  /** `sort_values('stat', ascending=False)`: descending, NaN last. */
  predicate StatDesc(a: Stat, b: Stat)
  {
    Rank(a) < Rank(b) || (Rank(a) == Rank(b) && (a.Finite? ==> a.value >= b.value))
  }

  lemma StatDescTotal()
    ensures Sorting.TotalPreorder(StatDesc)
  {
  }

  /** `int(n * 0.4)`, with no lower bound of two in this version. */
  function Cutoff(n: nat): nat { 2 * n / 5 }

  function ByStat(rows: seq<Position.SeatRow>): seq<Position.SeatRow>
  {
    Sorting.SortBy(ValidRows(rows), StatOf, StatDesc)
  }

  function Informed(rows: seq<Position.SeatRow>): seq<Position.SeatRow>
  {
    Sorting.Take(ByStat(rows), Cutoff(|ValidRows(rows)|))
  }

  function Uninformed(rows: seq<Position.SeatRow>): seq<Position.SeatRow>
  {
    var sorted := ByStat(rows);
    sorted[|Sorting.Take(sorted, Cutoff(|sorted|))|..]
  }

  /** The two groups split the valid seats, every informed seat ranking at least as high as every uninformed one. */
  lemma SpiderSplit(rows: seq<Position.SeatRow>)
    ensures Informed(rows) + Uninformed(rows) == ByStat(rows)
    ensures multiset(Informed(rows)) + multiset(Uninformed(rows)) == multiset(ValidRows(rows))
    ensures |Informed(rows)| == Cutoff(|ValidRows(rows)|)
    ensures forall x, y :: x in Informed(rows) && y in Uninformed(rows) ==> StatDesc(StatOf(x), StatOf(y))
  {
    var sorted := ByStat(rows);
    Sorting.TakeDrop(sorted, Cutoff(|sorted|));
    StatDescTotal();
    Sorting.SortBySorted(ValidRows(rows), StatOf, StatDesc);
    var k := |Informed(rows)|;
    assert Informed(rows) == sorted[..k];
    Sorting.SortedCut(sorted, StatOf, StatDesc, k);
  }

  /** `(long - short) / (long + short)` for the seats where it is a number. */
  function Imbalances(rows: seq<Position.SeatRow>): seq<real>
  {
    if rows == [] then []
    else
      var last := rows[|rows| - 1];
      var total := Position.Lots(last.longOI) + Position.Lots(last.shortOI);
      Imbalances(rows[..|rows| - 1]) +
        (if total != 0 then [(Position.Lots(last.longOI) - Position.Lots(last.shortOI)) as real / total as real] else [])
  }

  /** With non-negative holdings every imbalance lies in [-1, 1]. */
  lemma {:induction false} ImbalancesBounded(rows: seq<Position.SeatRow>)
    requires forall r :: r in rows ==> Position.Lots(r.longOI) >= 0 && Position.Lots(r.shortOI) >= 0
    ensures forall i :: 0 <= i < |Imbalances(rows)| ==> -1.0 <= Imbalances(rows)[i] <= 1.0
  {
    if rows != [] {
      var last := rows[|rows| - 1];
      assert forall r :: r in rows[..|rows| - 1] ==> r in rows;
      ImbalancesBounded(rows[..|rows| - 1]);
      var total := Position.Lots(last.longOI) + Position.Lots(last.shortOI);
      if total != 0 {
        FuturesAnalyzer.UnitRatio(Position.Lots(last.longOI) - Position.Lots(last.shortOI), total);
      }
    }
  }

  /** The mean difference, or none when a group has no number to average (pandas gives NaN). */
  function Msd(rows: seq<Position.SeatRow>): Option<real>
  {
    var its := Imbalances(Informed(rows));
    var uts := Imbalances(Uninformed(rows));
    if its == [] || uts == [] then None else Some(Signals.Mean(its) - Signals.Mean(uts))
  }

  /**
   * `SpiderWebStrategy`: no valid seat or no mean difference is neutral;
   * otherwise the sign of the difference decides, its magnitude the strength.
   */
  function SpiderWeb(rows: seq<Position.SeatRow>): (v: Signals.Verdict)
    ensures ValidRows(rows) == [] || Msd(rows).None? ==> v == Signals.Verdict(Signals.Neutral, 0.0)
    ensures ValidRows(rows) != [] && Msd(rows).Some? ==>
      (v.direction == Signals.Bullish <==> Msd(rows).value > 0.0) &&
      (v.direction == Signals.Bearish <==> Msd(rows).value < 0.0) &&
      (v.direction == Signals.Neutral <==> Msd(rows).value == 0.0) &&
      (v.strength == if Msd(rows).value < 0.0 then -Msd(rows).value else Msd(rows).value)
  {
    if ValidRows(rows) == [] then Signals.Verdict(Signals.Neutral, 0.0)
    else match Msd(rows)
      case None => Signals.Verdict(Signals.Neutral, 0.0)
      case Some(msd) =>
        if msd > 0.0 then Signals.Verdict(Signals.Bullish, msd)
        else if msd < 0.0 then Signals.Verdict(Signals.Bearish, -msd)
        else Signals.Verdict(Signals.Neutral, 0.0)
  }

  /** With two valid seats or fewer the informed group is empty, so there is no signal. */
  lemma SmallTableNeutral(rows: seq<Position.SeatRow>)
    requires |ValidRows(rows)| <= 2
    ensures SpiderWeb(rows) == Signals.Verdict(Signals.Neutral, 0.0)
  {
    assert Informed(rows) == [];
  }

  /** Both groups are drawn from the table's rows. */
  lemma GroupsFromRows(rows: seq<Position.SeatRow>)
    ensures forall x :: x in Informed(rows) ==> x in rows
    ensures forall x :: x in Uninformed(rows) ==> x in rows
  {
    SpiderSplit(rows);
    forall x | x in Informed(rows) ensures x in rows {
      assert x in multiset(ValidRows(rows));
    }
    forall x | x in Uninformed(rows) ensures x in rows {
      assert x in multiset(ValidRows(rows));
    }
  }

  /** With non-negative holdings the mean difference lies in [-2, 2]. */
  lemma MsdBound(rows: seq<Position.SeatRow>)
    requires forall r :: r in rows ==> Position.Lots(r.longOI) >= 0 && Position.Lots(r.shortOI) >= 0
    ensures Msd(rows).Some? ==> -2.0 <= Msd(rows).value <= 2.0
  {
    var its := Imbalances(Informed(rows));
    var uts := Imbalances(Uninformed(rows));
    if its != [] && uts != [] {
      GroupsFromRows(rows);
      ImbalancesBounded(Informed(rows));
      ImbalancesBounded(Uninformed(rows));
      Signals.MeanBound(its, -1.0, 1.0);
      Signals.MeanBound(uts, -1.0, 1.0);
    }
  }

  /** The strength is never negative, and at most 2 when holdings are non-negative. */
  lemma SpiderStrengthBound(rows: seq<Position.SeatRow>)
    requires forall r :: r in rows ==> Position.Lots(r.longOI) >= 0 && Position.Lots(r.shortOI) >= 0
    ensures 0.0 <= SpiderWeb(rows).strength <= 2.0
  {
    MsdBound(rows);
  }

  // ----- retail reverse on changes -----

  /** The seats `RetailReverseStrategy` watches; this class does not take them as configuration. */
  const RetailSeats: seq<string> := Position.DefaultRetailSeats

  /** The watched seats whose accumulated long or short change is not zero, in seat order. */
  function Changed(rows: seq<Position.SeatRow>, order: seq<string>): seq<Position.SeatChange>
  {
    if order == [] then []
    else
      var x := Position.ChangeOf(rows, order[0]);
      (if x.longChg != 0 || x.shortChg != 0 then [x] else []) + Changed(rows, order[1..])
  }

  /** The details are exactly the changes of the watched seats whose long or short change is non-zero. */
  lemma {:induction false} ChangedMeaning(rows: seq<Position.SeatRow>, order: seq<string>)
    ensures forall x :: x in Changed(rows, order) ==>
      x.name in order && x == Position.ChangeOf(rows, x.name) && (x.longChg != 0 || x.shortChg != 0)
    ensures forall s :: s in order && (Position.ChangeOf(rows, s).longChg != 0 || Position.ChangeOf(rows, s).shortChg != 0) ==>
      Position.ChangeOf(rows, s) in Changed(rows, order)
  {
    if order != [] {
      ChangedMeaning(rows, order[1..]);
      var x := Position.ChangeOf(rows, order[0]);
      var head := if x.longChg != 0 || x.shortChg != 0 then [x] else [];
      var rest := Changed(rows, order[1..]);
      assert Changed(rows, order) == head + rest;
      assert forall s :: s in order ==> s == order[0] || s in order[1..];
    }
  }

  function Ratio(part: int, total: int): real
  {
    if total > 0 then part as real / total as real else 0.0
  }

  /**
   * The retail rule: every changed seat adding longs is bearish with the
   * retail share of the long interest; otherwise every changed seat adding
   * shorts is bullish with the share of the short interest; else neutral.
   */
  function RetailVerdict(changed: seq<Position.SeatChange>, retailLong: int, retailShort: int, totalLong: int, totalShort: int): (v: Signals.Verdict)
    ensures changed == [] ==> v == Signals.Verdict(Signals.Neutral, 0.0)
    ensures v.direction == Signals.Bearish <==> changed != [] && forall x :: x in changed ==> x.longChg > 0
    ensures v.direction == Signals.Bullish <==> changed != [] && (exists x :: x in changed && x.longChg <= 0) && forall x :: x in changed ==> x.shortChg > 0
    ensures v.direction == Signals.Bearish ==> v.strength == Ratio(retailLong, totalLong)
    ensures v.direction == Signals.Bullish ==> v.strength == Ratio(retailShort, totalShort)
    ensures v.direction != Signals.Bullish && v.direction != Signals.Bearish ==> v == Signals.Verdict(Signals.Neutral, 0.0)
  {
    if changed == [] then Signals.Verdict(Signals.Neutral, 0.0)
    else if forall x :: x in changed ==> x.longChg > 0 then Signals.Verdict(Signals.Bearish, Ratio(retailLong, totalLong))
    else if forall x :: x in changed ==> x.shortChg > 0 then Signals.Verdict(Signals.Bullish, Ratio(retailShort, totalShort))
    else Signals.Verdict(Signals.Neutral, 0.0)
  }

  /** What `RetailReverseStrategy.analyze` answers for a table's rows. */
  function RetailReverse(rows: seq<Position.SeatRow>, seats: seq<string>): Signals.Verdict
  {
    RetailVerdict(Changed(rows, Position.Dedup(seats)),
      Position.InSeatsTotal(rows, seats, Position.LongParty, Position.LongOI),
      Position.InSeatsTotal(rows, seats, Position.ShortParty, Position.ShortOI),
      Position.Total(rows, Position.LongOI), Position.Total(rows, Position.ShortOI))
  }

  /** `RetailReverseStrategy.analyze`: accumulate the changes, keep the changed seats, sum the retail holdings. */
  method AnalyzeRetailReverse(data: Position.PositionSummary, seats: seq<string>) returns (v: Signals.Verdict)
    ensures v == RetailReverse(data.rows, seats)
  {
    var stats := Position.AccumulateSeatChanges(data.rows, seats);
    var order := Position.Dedup(seats);
    var details := CollectChanged(data.rows, stats, order);
    if details == [] {
      return Signals.Verdict(Signals.Neutral, 0.0);
    }
    var retailLong, retailShort := Position.SumRetailHoldings(data.rows, seats);
    var totalLong := Position.Total(data.rows, Position.LongOI);
    var totalShort := Position.Total(data.rows, Position.ShortOI);
    v := RetailVerdict(details, retailLong, retailShort, totalLong, totalShort);
  }

  /** The loop over `seat_stats.items()` that keeps the seats whose change is not zero. */
  method CollectChanged(rows: seq<Position.SeatRow>, stats: map<string, Position.SeatChange>, order: seq<string>)
    returns (details: seq<Position.SeatChange>)
    requires forall s :: s in order ==> s in stats && stats[s] == Position.ChangeOf(rows, s)
    ensures details == Changed(rows, order)
  {
    details := [];
    var i := 0;
    while i < |order|
      invariant 0 <= i <= |order|
      invariant Changed(rows, order) == details + Changed(rows, order[i..])
    {
      ChangedStep(rows, order, i);
      var chg := stats[order[i]];
      if chg.longChg != 0 || chg.shortChg != 0 {
        details := details + [chg];
      }
      i := i + 1;
    }
  }

  lemma ChangedStep(rows: seq<Position.SeatRow>, order: seq<string>, i: nat)
    requires i < |order|
    ensures Changed(rows, order[i..]) ==
      (if Position.ChangeOf(rows, order[i]).longChg != 0 || Position.ChangeOf(rows, order[i]).shortChg != 0
       then [Position.ChangeOf(rows, order[i])] else []) + Changed(rows, order[i + 1..])
  {
    assert order[i..][1..] == order[i + 1..];
  }

  /** With non-negative holdings the retail strength is a share: between 0 and 1. */
  lemma RetailStrengthBound(rows: seq<Position.SeatRow>, seats: seq<string>)
    requires forall r :: r in rows ==> Position.Lots(r.longOI) >= 0 && Position.Lots(r.shortOI) >= 0
    ensures 0.0 <= RetailReverse(rows, seats).strength <= 1.0
  {
    Position.InSeatsTotalBound(rows, seats, Position.LongParty, Position.LongOI);
    Position.InSeatsTotalBound(rows, seats, Position.ShortParty, Position.ShortOI);
    var rl := Position.InSeatsTotal(rows, seats, Position.LongParty, Position.LongOI);
    var rs := Position.InSeatsTotal(rows, seats, Position.ShortParty, Position.ShortOI);
    var tl := Position.Total(rows, Position.LongOI);
    var ts := Position.Total(rows, Position.ShortOI);
    if tl > 0 {
      FuturesAnalyzer.ShareBound(rl, tl);
    }
    if ts > 0 {
      FuturesAnalyzer.ShareBound(rs, ts);
    }
  }

  // ----- all positions -----

  /** The exchanges in the order this analyser downloads and reads them. */
  const Exchanges: seq<string> := ["郑商所", "中金所", "大商所", "上期所", "广期所"]

  /** The three strategies' verdicts on one processed table. */
  function Verdicts(data: Position.PositionSummary): map<string, Signals.Verdict>
  {
    map[
      FuturesAnalyzer.StrategyNames[0] := PowerChange(data.totalLongChg, data.totalShortChg),
      FuturesAnalyzer.StrategyNames[1] := SpiderWeb(data.rows),
      FuturesAnalyzer.StrategyNames[2] := RetailReverse(data.rows, RetailSeats)]
  }

  /** `"{exchange}_{contract}"`. */
  function ResultKey(exchange: string, contract: string): string { exchange + "_" + contract }

  /** The result of one sheet: none when its table cannot be processed. */
  function SheetResult(exchange: string, s: Sheets.Sheet): seq<FuturesAnalyzer.ContractResult>
  {
    var p := ProcessPositionData(s.table);
    if p.Some? then [FuturesAnalyzer.ContractResult(ResultKey(exchange, s.name), Verdicts(p.value))] else []
  }

  /** The results of one exchange's workbook: one per sheet whose table could be processed. */
  function SheetResults(exchange: string, sheets: seq<Sheets.Sheet>): seq<FuturesAnalyzer.ContractResult>
  {
    if sheets == [] then []
    else SheetResults(exchange, sheets[..|sheets| - 1]) + SheetResult(exchange, sheets[|sheets| - 1])
  }

  /** The results of the first `n` exchanges, read through `workbook`. */
  function AllResults(workbook: nat -> seq<Sheets.Sheet>, n: nat): seq<FuturesAnalyzer.ContractResult>
    requires n <= |Exchanges|
  {
    if n == 0 then [] else AllResults(workbook, n - 1) + SheetResults(Exchanges[n - 1], workbook(n - 1))
  }

  /** `r` is the result of processing sheet `s` of `exchange`'s workbook. */
  predicate ResultOf(exchange: string, s: Sheets.Sheet, r: FuturesAnalyzer.ContractResult)
  {
    ProcessPositionData(s.table).Some? && r.contract == ResultKey(exchange, s.name) &&
    r.strategies == Verdicts(ProcessPositionData(s.table).value)
  }

  lemma SheetResultMeaning(exchange: string, s: Sheets.Sheet)
    ensures forall r :: r in SheetResult(exchange, s) <==> ResultOf(exchange, s, r)
  {
  }

  /** A result exists exactly for a sheet whose table has the seven columns, under the key `exchange_contract`. */
  lemma {:induction false} SheetResultsMeaning(exchange: string, sheets: seq<Sheets.Sheet>)
    ensures forall r :: r in SheetResults(exchange, sheets) ==> exists s :: s in sheets && ResultOf(exchange, s, r)
    ensures forall s :: s in sheets && ProcessPositionData(s.table).Some? ==>
      exists r :: r in SheetResults(exchange, sheets) && ResultOf(exchange, s, r)
  {
    if sheets != [] {
      var init := sheets[..|sheets| - 1];
      var last := sheets[|sheets| - 1];
      SheetResultsMeaning(exchange, init);
      SheetResultMeaning(exchange, last);
      assert sheets == init + [last];
      var here := SheetResult(exchange, last);
      assert SheetResults(exchange, sheets) == SheetResults(exchange, init) + here;
      forall r | r in SheetResults(exchange, sheets) ensures exists s :: s in sheets && ResultOf(exchange, s, r) {
        if r in here {
          assert last in sheets && ResultOf(exchange, last, r);
        } else {
          var s :| s in init && ResultOf(exchange, s, r);
          assert s in sheets;
        }
      }
      forall s | s in sheets && ProcessPositionData(s.table).Some?
        ensures exists r :: r in SheetResults(exchange, sheets) && ResultOf(exchange, s, r)
      {
        if s == last {
          var r := here[0];
          assert r in here && ResultOf(exchange, last, r);
        } else {
          assert s in init;
          var r :| r in SheetResults(exchange, init) && ResultOf(exchange, s, r);
          assert r in SheetResults(exchange, sheets);
        }
      }
    }
  }

  /** `analyze_all_positions`: every exchange's workbook, every sheet, the three strategies. */
  method AnalyzeAllPositions(workbook: nat -> seq<Sheets.Sheet>) returns (results: seq<FuturesAnalyzer.ContractResult>)
    ensures results == AllResults(workbook, |Exchanges|)
  {
    results := [];
    var e := 0;
    while e < |Exchanges|
      invariant 0 <= e <= |Exchanges|
      invariant results == AllResults(workbook, e)
    {
      var sheets := workbook(e);
      var exchangeResults := AnalyzeWorkbook(Exchanges[e], sheets);
      results := results + exchangeResults;
      e := e + 1;
    }
  }

  method AnalyzeWorkbook(exchange: string, sheets: seq<Sheets.Sheet>) returns (results: seq<FuturesAnalyzer.ContractResult>)
    ensures results == SheetResults(exchange, sheets)
  {
    results := [];
    var i := 0;
    while i < |sheets|
      invariant 0 <= i <= |sheets|
      invariant results == SheetResults(exchange, sheets[..i])
    {
      SheetResultsStep(exchange, sheets, i);
      var here := AnalyzeSheet(exchange, sheets[i]);
      results := results + here;
      i := i + 1;
    }
    assert sheets[..i] == sheets;
  }

  lemma SheetResultsStep(exchange: string, sheets: seq<Sheets.Sheet>, i: nat)
    requires i < |sheets|
    ensures SheetResults(exchange, sheets[..i + 1]) == SheetResults(exchange, sheets[..i]) + SheetResult(exchange, sheets[i])
  {
    assert sheets[..i + 1][..i] == sheets[..i];
  }

  /** The body of the sheet loop: process the table, then run the three strategies on it. */
  method AnalyzeSheet(exchange: string, sheet: Sheets.Sheet) returns (here: seq<FuturesAnalyzer.ContractResult>)
    ensures here == SheetResult(exchange, sheet)
  {
    var processed := ProcessPositionData(sheet.table);
    if processed.None? {
      return [];
    }
    var data := processed.value;
    var retail := AnalyzeRetailReverse(data, RetailSeats);
    var strategies := map[
      FuturesAnalyzer.StrategyNames[0] := PowerChange(data.totalLongChg, data.totalShortChg),
      FuturesAnalyzer.StrategyNames[1] := SpiderWeb(data.rows),
      FuturesAnalyzer.StrategyNames[2] := retail];
    here := [FuturesAnalyzer.ContractResult(ResultKey(exchange, sheet.name), strategies)];
  }

  // ----- download -----

  /** Whether a sheet name is written as is (the first three exchanges) or cleaned (the last two). */
  function SheetHandler(exchange: nat, name: string): string
  {
    if exchange < 3 then name else Sheets.CleanSheetName(name)
  }

  function HandleSheets(exchange: nat, data: seq<Sheets.Sheet>): (r: seq<Sheets.Sheet>)
    ensures |r| == |data|
    ensures forall i :: 0 <= i < |data| ==> r[i] == Sheets.Sheet(SheetHandler(exchange, data[i].name), data[i].table)
  {
    if data == [] then [] else [Sheets.Sheet(SheetHandler(exchange, data[0].name), data[0].table)] + HandleSheets(exchange, data[1..])
  }

  /** The workbooks written after trying the first `n` exchanges; `written(i)` says whether writing exchange `i` went through. */
  function Written(fetch: nat -> FuturesAnalyzer.FetchOutcome, written: nat -> bool, n: nat): Sheets.Sink
    requires n <= |Exchanges|
  {
    if n == 0 then map[]
    else if FuturesAnalyzer.Saved(fetch, written, n - 1) then
      Written(fetch, written, n - 1)[FuturesAnalyzer.PositionFile(Exchanges[n - 1]) := HandleSheets(n - 1, fetch(n - 1).sheets)]
    else Written(fetch, written, n - 1)
  }

  /** Whether each of the first `n` exchanges delivered data and had it written. */
  function AllSaved(fetch: nat -> FuturesAnalyzer.FetchOutcome, written: nat -> bool, n: nat): bool
  {
    n == 0 || (AllSaved(fetch, written, n - 1) && FuturesAnalyzer.Saved(fetch, written, n - 1))
  }

  lemma {:induction false} AllSavedMeaning(fetch: nat -> FuturesAnalyzer.FetchOutcome, written: nat -> bool, n: nat)
    ensures AllSaved(fetch, written, n) <==> forall i :: 0 <= i < n ==> FuturesAnalyzer.Saved(fetch, written, i)
  {
    if n > 0 {
      AllSavedMeaning(fetch, written, n - 1);
    }
  }

  /**
   * `FuturesDataFetcher.fetch_data`: every exchange is tried, and the result
   * says whether all of them delivered data and had it written.
   */
  method FetchData(fetch: nat -> FuturesAnalyzer.FetchOutcome, written: nat -> bool) returns (success: bool, sink: Sheets.Sink)
    ensures success <==> forall i :: 0 <= i < |Exchanges| ==> FuturesAnalyzer.Saved(fetch, written, i)
    ensures sink == Written(fetch, written, |Exchanges|)
  {
    success := true;
    sink := map[];
    var i := 0;
    while i < |Exchanges|
      invariant 0 <= i <= |Exchanges|
      invariant success == AllSaved(fetch, written, i)
      invariant sink == Written(fetch, written, i)
    {
      var outcome := fetch(i);
      if outcome.Raised? || outcome.sheets == [] || !written(i) {
        success := false;
      } else {
        sink := sink[FuturesAnalyzer.PositionFile(Exchanges[i]) := HandleSheets(i, outcome.sheets)];
      }
      i := i + 1;
    }
    AllSavedMeaning(fetch, written, |Exchanges|);
  }

  /** A failing exchange does not stop the others: each later exchange with data whose write goes through is still written. */
  lemma {:induction false} WrittenDespiteFailures(fetch: nat -> FuturesAnalyzer.FetchOutcome, written: nat -> bool, n: nat, i: nat)
    requires n <= |Exchanges| && i < n && FuturesAnalyzer.Saved(fetch, written, i)
    ensures FuturesAnalyzer.PositionFile(Exchanges[i]) in Written(fetch, written, n)
    ensures Written(fetch, written, n)[FuturesAnalyzer.PositionFile(Exchanges[i])] == HandleSheets(i, fetch(i).sheets)
  {
    if i < n - 1 {
      WrittenDespiteFailures(fetch, written, n - 1, i);
      ExchangeFilesDistinct();
      assert FuturesAnalyzer.PositionFile(Exchanges[i]) != FuturesAnalyzer.PositionFile(Exchanges[n - 1]);
    }
  }

  /** Nothing is written for an exchange whose call or write failed. */
  lemma {:induction false} NothingForFailures(fetch: nat -> FuturesAnalyzer.FetchOutcome, written: nat -> bool, n: nat, i: nat)
    requires n <= |Exchanges| && i < |Exchanges| && !FuturesAnalyzer.Saved(fetch, written, i)
    ensures FuturesAnalyzer.PositionFile(Exchanges[i]) !in Written(fetch, written, n)
  {
    if n > 0 {
      NothingForFailures(fetch, written, n - 1, i);
      if i != n - 1 {
        ExchangeFilesDistinct();
        assert FuturesAnalyzer.PositionFile(Exchanges[i]) != FuturesAnalyzer.PositionFile(Exchanges[n - 1]);
      }
    }
  }

  lemma ExchangeFilesDistinct()
    ensures forall i, j :: 0 <= i < j < |Exchanges| ==>
      FuturesAnalyzer.PositionFile(Exchanges[i]) != FuturesAnalyzer.PositionFile(Exchanges[j])
  {
    forall i, j | 0 <= i < j < |Exchanges|
      ensures FuturesAnalyzer.PositionFile(Exchanges[i]) != FuturesAnalyzer.PositionFile(Exchanges[j])
    {
      assert FuturesAnalyzer.PositionFile(Exchanges[i])[0] == Exchanges[i][0];
      assert FuturesAnalyzer.PositionFile(Exchanges[j])[0] == Exchanges[j][0];
    }
  }

  // ----- text report -----

  /** `get_signals`: the directional signals of one strategy, strongest first. */
  function StrategySignals(results: seq<FuturesAnalyzer.ContractResult>, name: string, d: Signals.Direction): seq<Signals.SignalEntry>
  {
    Signals.ByStrength(FuturesAnalyzer.SignalsOf(results, name, d))
  }

  /** A strategy gives at most one direction per contract, so its neutral count `total - long - short` is never negative. */
  lemma {:induction false} SignalCountsWithinTotal(results: seq<FuturesAnalyzer.ContractResult>, name: string)
    ensures |FuturesAnalyzer.SignalsOf(results, name, Signals.Bullish)| + |FuturesAnalyzer.SignalsOf(results, name, Signals.Bearish)| <= |results|
  {
    if results != [] {
      SignalCountsWithinTotal(results[..|results| - 1], name);
    }
  }

  /** The market forecast from the share of spider-web bullish signals. */
  datatype Forecast = Bullish | CautiousBullish | CautiousBearish | Bearish

  function LongRatio(results: seq<FuturesAnalyzer.ContractResult>): real
  {
    var longs := |FuturesAnalyzer.SignalsOf(results, FuturesAnalyzer.StrategyNames[1], Signals.Bullish)|;
    if |results| == 0 then 0.0 else longs as real / |results| as real
  }

  /** The forecast thresholds: above 0.7, above 0.5, above 0.3, otherwise bearish. */
  function Predict(ratio: real): (f: Forecast)
    ensures f == Bullish <==> ratio > 0.7
    ensures f == CautiousBullish <==> 0.5 < ratio <= 0.7
    ensures f == CautiousBearish <==> 0.3 < ratio <= 0.5
    ensures f == Bearish <==> ratio <= 0.3
  {
    if ratio > 0.7 then Bullish
    else if ratio > 0.5 then CautiousBullish
    else if ratio > 0.3 then CautiousBearish
    else Bearish
  }

  /** The forecast never turns more bearish as the bullish share grows. */
  lemma PredictMonotone(a: real, b: real)
    requires a <= b
    ensures Predict(b) == Bullish || (Predict(b) == CautiousBullish && Predict(a) != Bullish) ||
      (Predict(b) == CautiousBearish && (Predict(a) == CautiousBearish || Predict(a) == Bearish)) ||
      (Predict(b) == Bearish && Predict(a) == Bearish)
  {
  }

  /** The share of bullish spider-web signals lies between 0 and 1. */
  lemma LongRatioBound(results: seq<FuturesAnalyzer.ContractResult>)
    ensures 0.0 <= LongRatio(results) <= 1.0
  {
    SignalCountsWithinTotal(results, FuturesAnalyzer.StrategyNames[1]);
    if |results| > 0 {
      FuturesAnalyzer.ShareBound(|FuturesAnalyzer.SignalsOf(results, FuturesAnalyzer.StrategyNames[1], Signals.Bullish)|, |results|);
    }
  }

  /** The contracts among the first ten of a list. */
  function TopContracts(list: seq<Signals.SignalEntry>): (s: set<string>)
    ensures forall c :: c in s <==> exists i :: 0 <= i < |list| && i < Signals.TopCount && list[i].contract == c
  {
    set i | 0 <= i < |list| && i < Signals.TopCount :: list[i].contract
  }

  lemma {:induction false} TopContractsSize(list: seq<Signals.SignalEntry>)
    ensures |TopContracts(list)| <= Signals.TopCount
  {
    var top := Sorting.Take(list, Signals.TopCount);
    var s := set e | e in top :: e.contract;
    assert TopContracts(list) == s by {
      forall c ensures c in TopContracts(list) <==> c in s {
        if c in TopContracts(list) {
          var i :| 0 <= i < |list| && i < Signals.TopCount && list[i].contract == c;
          assert top[i] == list[i];
        }
      }
    }
    ContractsOfSize(top);
  }

  lemma {:induction false} ContractsOfSize(l: seq<Signals.SignalEntry>)
    ensures |set e | e in l :: e.contract| <= |l|
  {
    if l != [] {
      ContractsOfSize(l[1..]);
      assert (set e | e in l :: e.contract) == {l[0].contract} + (set e | e in l[1..] :: e.contract) by {
        assert l == [l[0]] + l[1..];
      }
    }
  }

  /** The trading opportunities of one direction: contracts in both strategies' top ten. */
  function Opportunities(results: seq<FuturesAnalyzer.ContractResult>, d: Signals.Direction): set<string>
  {
    TopContracts(StrategySignals(results, FuturesAnalyzer.StrategyNames[0], d)) *
      TopContracts(StrategySignals(results, FuturesAnalyzer.StrategyNames[1], d))
  }

  /** There are at most ten opportunities in each direction. */
  lemma OpportunitiesSize(results: seq<FuturesAnalyzer.ContractResult>, d: Signals.Direction)
    ensures |Opportunities(results, d)| <= Signals.TopCount
  {
    var p := StrategySignals(results, FuturesAnalyzer.StrategyNames[0], d);
    TopContractsSize(p);
    SubsetSize(Opportunities(results, d), TopContracts(p));
  }

  /** An opportunity is a contract both strategies put in their top ten in that direction. */
  lemma OpportunitiesMeaning(results: seq<FuturesAnalyzer.ContractResult>, d: Signals.Direction, c: string)
    requires c in Opportunities(results, d)
    ensures exists r :: r in results && r.contract == c && FuturesAnalyzer.Gave(r, FuturesAnalyzer.StrategyNames[0], d)
    ensures exists r :: r in results && r.contract == c && FuturesAnalyzer.Gave(r, FuturesAnalyzer.StrategyNames[1], d)
  {
    InTopGave(results, FuturesAnalyzer.StrategyNames[0], d, c);
    InTopGave(results, FuturesAnalyzer.StrategyNames[1], d, c);
  }

  lemma InTopGave(results: seq<FuturesAnalyzer.ContractResult>, name: string, d: Signals.Direction, c: string)
    requires c in TopContracts(StrategySignals(results, name, d))
    ensures exists r :: r in results && r.contract == c && FuturesAnalyzer.Gave(r, name, d)
  {
    var es := FuturesAnalyzer.SignalsOf(results, name, d);
    var p := StrategySignals(results, name, d);
    var i :| 0 <= i < |p| && i < Signals.TopCount && p[i].contract == c;
    Signals.ByStrengthOrdered(es);
    assert p[i] in multiset(es);
    assert p[i] in es;
  }

  lemma SubsetSize(a: set<string>, b: set<string>)
    requires a <= b
    ensures |a| <= |b|
  {
    assert b == a + (b - a);
  }

  /** The interactive date check: eight characters, all digits. */
  function DateInputAccepted(s: string): (ok: bool)
    ensures ok <==> |s| == 8 && forall i :: 0 <= i < 8 ==> Text.IsAsciiDigit(s[i])
  {
    |s| == 8 && Text.AllDigits(s)
  }

  /** Every real calendar date, written as `YYYYMMDD`, passes the check. */
  lemma DateInputAcceptsFormatted(d: Calendar.Date)
    requires Calendar.Valid(d)
    ensures DateInputAccepted(Calendar.FormatYmd(d))
  {
  }
}
