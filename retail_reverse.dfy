/**
 * `retail_reverse_strategy.py`: the stand-alone retail-reverse analyser. It
 * keeps every ranked row, measures strength by the retail seats' changes
 * against the total open interest, and reports separately the retail share of
 * the side that triggered the signal.
 */
module RetailReverse {
  import opened Wrappers
  import Position
  import Signals
  import Sheets
  import FuturesAnalyzer
  import PositionAnalysis

  /** `process_position_data`: normalise the Zhengzhou names, demand the seven columns, keep every row. */
  function ProcessPositionData(t: Position.RawTable): (r: Option<seq<Position.SeatRow>>)
    ensures r.None? <==> !Position.HasRequiredColumns(PositionAnalysis.StandardizeColumns(t))
    ensures r.Some? ==> (|r.value| == t.height &&
      forall i :: 0 <= i < t.height ==> r.value[i] == Position.RowAt(PositionAnalysis.StandardizeColumns(t), i))
  {
    var std := PositionAnalysis.StandardizeColumns(t);
    if !Position.HasRequiredColumns(std) then None else Some(Position.ParseRows(std, std.height))
  }

  /** Without the 20-rank cut this keeps everything the stand-alone analyser keeps, and more. */
  lemma KeepsAtLeastTopRanks(t: Position.RawTable)
    ensures ProcessPositionData(t).Some? <==> PositionAnalysis.ProcessPositionData(t).Some?
    ensures ProcessPositionData(t).Some? ==>
      PositionAnalysis.ProcessPositionData(t).value.rows == ProcessPositionData(t).value[..PositionAnalysis.Min(t.height, PositionAnalysis.TopRanks)]
  {
  }

  /** A verdict together with the changed seats it was drawn from (none when nothing changed). */
  datatype RetailAnalysis = RetailAnalysis(verdict: Signals.Verdict, details: Option<seq<Position.SeatChange>>)

  function Abs(x: int): nat { if x < 0 then -x else x }

  /** `Σ(|long_chg| + |short_chg|)` over the changed seats. */
  function Activity(details: seq<Position.SeatChange>): nat
  {
    if details == [] then 0
    else Activity(details[..|details| - 1]) + Abs(details[|details| - 1].longChg) + Abs(details[|details| - 1].shortChg)
  }

  /** The retail activity as a share of all open interest, 0 unless the latter is positive. */
  function ActivityRatio(details: seq<Position.SeatChange>, totalPosition: int): (r: real)
    ensures r >= 0.0
    ensures totalPosition <= 0 ==> r == 0.0
  {
    if totalPosition > 0 then Activity(details) as real / totalPosition as real else 0.0
  }

  /**
   * `RetailReverseStrategy.analyze`: no changed seat is neutral with no
   * details; all changed seats adding longs is bearish; otherwise all adding
   * shorts is bullish; both with the activity ratio; else neutral, strength 0.
   */
  function Analysis(rows: seq<Position.SeatRow>, seats: seq<string>): (a: RetailAnalysis)
    ensures a.details.None? <==> PositionAnalysis.Changed(rows, Position.Dedup(seats)) == []
    ensures a.details.Some? ==> a.details.value == PositionAnalysis.Changed(rows, Position.Dedup(seats))
    ensures a.verdict.direction == Signals.Bearish <==> a.details.Some? && forall x :: x in a.details.value ==> x.longChg > 0
    ensures a.verdict.direction == Signals.Bullish <==> (a.details.Some? &&
      (exists x :: x in a.details.value && x.longChg <= 0) && forall x :: x in a.details.value ==> x.shortChg > 0)
    ensures a.verdict.direction in {Signals.Bullish, Signals.Bearish} ==> (a.verdict.strength ==
      ActivityRatio(a.details.value, Position.Total(rows, Position.LongOI) + Position.Total(rows, Position.ShortOI)))
    ensures a.verdict.direction !in {Signals.Bullish, Signals.Bearish} ==> a.verdict == Signals.Verdict(Signals.Neutral, 0.0)
  {
    var details := PositionAnalysis.Changed(rows, Position.Dedup(seats));
    if details == [] then RetailAnalysis(Signals.Verdict(Signals.Neutral, 0.0), None)
    else
      var ratio := ActivityRatio(details, Position.Total(rows, Position.LongOI) + Position.Total(rows, Position.ShortOI));
      if forall x :: x in details ==> x.longChg > 0 then RetailAnalysis(Signals.Verdict(Signals.Bearish, ratio), Some(details))
      else if forall x :: x in details ==> x.shortChg > 0 then RetailAnalysis(Signals.Verdict(Signals.Bullish, ratio), Some(details))
      else RetailAnalysis(Signals.Verdict(Signals.Neutral, 0.0), Some(details))
  }

  /** The direction agrees with the stand-alone analyser's retail rule on the same rows and seats. */
  lemma SameDirectionAsPositionAnalysis(rows: seq<Position.SeatRow>, seats: seq<string>)
    ensures Analysis(rows, seats).verdict.direction == PositionAnalysis.RetailReverse(rows, seats).direction
  {
  }

  /** The watched seats, fixed in this class as in the stand-alone analyser. */
  const RetailSeats: seq<string> := Position.DefaultRetailSeats

  /** `RetailReverseStrategy.analyze` as the loops over rows and seats compute it. */
  method Analyze(rows: seq<Position.SeatRow>, seats: seq<string>) returns (a: RetailAnalysis)
    ensures a == Analysis(rows, seats)
  {
    var stats := Position.AccumulateSeatChanges(rows, seats);
    var details := PositionAnalysis.CollectChanged(rows, stats, Position.Dedup(seats));
    if details == [] {
      return RetailAnalysis(Signals.Verdict(Signals.Neutral, 0.0), None);
    }
    var totalPosition := Position.Total(rows, Position.LongOI) + Position.Total(rows, Position.ShortOI);
    var retailPosition := SumActivity(details);
    var ratio := if totalPosition > 0 then retailPosition as real / totalPosition as real else 0.0;
    if forall x :: x in details ==> x.longChg > 0 {
      a := RetailAnalysis(Signals.Verdict(Signals.Bearish, ratio), Some(details));
    } else if forall x :: x in details ==> x.shortChg > 0 {
      a := RetailAnalysis(Signals.Verdict(Signals.Bullish, ratio), Some(details));
    } else {
      a := RetailAnalysis(Signals.Verdict(Signals.Neutral, 0.0), Some(details));
    }
  }

  /** The `sum([...])` over the changed seats. */
  method SumActivity(details: seq<Position.SeatChange>) returns (total: nat)
    ensures total == Activity(details)
  {
    total := 0;
    var i := 0;
    while i < |details|
      invariant 0 <= i <= |details|
      invariant total == Activity(details[..i])
    {
      assert details[..i + 1][..i] == details[..i];
      total := total + Abs(details[i].longChg) + Abs(details[i].shortChg);
      i := i + 1;
    }
    assert details[..i] == details;
  }

  /** The activity of the changed seats is never zero: each one moved one side at least. */
  lemma {:induction false} ActivityPositive(details: seq<Position.SeatChange>)
    requires details != []
    requires forall x :: x in details ==> x.longChg != 0 || x.shortChg != 0
    ensures Activity(details) > 0
  {
    var init := details[..|details| - 1];
    assert details[|details| - 1] in details;
    if init != [] {
      assert forall x :: x in init ==> x in details;
      ActivityPositive(init);
    }
  }

  /** A directional signal on positive open interest always has a positive strength. */
  lemma DirectionalStrengthPositive(rows: seq<Position.SeatRow>, seats: seq<string>)
    requires Position.Total(rows, Position.LongOI) + Position.Total(rows, Position.ShortOI) > 0
    requires Analysis(rows, seats).verdict.direction in {Signals.Bullish, Signals.Bearish}
    ensures Analysis(rows, seats).verdict.strength > 0.0
  {
    var details := PositionAnalysis.Changed(rows, Position.Dedup(seats));
    PositionAnalysis.ChangedMeaning(rows, Position.Dedup(seats));
    var a := Analysis(rows, seats);
    assert a.details == Some(details);
    ActivityPositive(details);
    var total := Position.Total(rows, Position.LongOI) + Position.Total(rows, Position.ShortOI);
    assert a.verdict.strength == Activity(details) as real / total as real;
    PositiveQuotient(Activity(details) as real, total as real);
  }

  lemma PositiveQuotient(x: real, y: real)
    requires x > 0.0 && y > 0.0
    ensures x / y > 0.0
  {
    assert x / y * y == x;
  }

  // ----- the retail share reported beside each result -----

  /**
   * The `retail_ratio` of `analyze_all_positions`: after a bullish signal the
   * retail share of the short interest, after a bearish one of the long
   * interest, otherwise 0.
   */
  function RetailRatio(d: Signals.Direction, rows: seq<Position.SeatRow>, seats: seq<string>): real
  {
    if d == Signals.Bullish then
      PositionAnalysis.Ratio(Position.InSeatsTotal(rows, seats, Position.ShortParty, Position.ShortOI), Position.Total(rows, Position.ShortOI))
    else if d == Signals.Bearish then
      PositionAnalysis.Ratio(Position.InSeatsTotal(rows, seats, Position.LongParty, Position.LongOI), Position.Total(rows, Position.LongOI))
    else 0.0
  }

  /** The reported share is exactly the strength the stand-alone analyser gives the same rows. */
  lemma RetailRatioIsPositionAnalysisStrength(rows: seq<Position.SeatRow>, seats: seq<string>)
    ensures RetailRatio(Analysis(rows, seats).verdict.direction, rows, seats) == PositionAnalysis.RetailReverse(rows, seats).strength
  {
    SameDirectionAsPositionAnalysis(rows, seats);
  }

  /** With non-negative holdings the reported share lies in [0, 1]. */
  lemma RetailRatioBound(rows: seq<Position.SeatRow>, seats: seq<string>)
    requires forall r :: r in rows ==> Position.Lots(r.longOI) >= 0 && Position.Lots(r.shortOI) >= 0
    ensures 0.0 <= RetailRatio(Analysis(rows, seats).verdict.direction, rows, seats) <= 1.0
  {
    RetailRatioIsPositionAnalysisStrength(rows, seats);
    PositionAnalysis.RetailStrengthBound(rows, seats);
  }

  // ----- all positions -----

  /** One entry of the results: the key, the analysis and the retail share. */
  datatype RetailResult = RetailResult(contract: string, analysis: RetailAnalysis, retailRatio: real)

  function ResultOfRows(key: string, rows: seq<Position.SeatRow>): RetailResult
  {
    var a := Analysis(rows, RetailSeats);
    RetailResult(key, a, RetailRatio(a.verdict.direction, rows, RetailSeats))
  }

  /** The results of one workbook: one per sheet that could be processed. */
  function SheetResults(exchange: string, sheets: seq<Sheets.Sheet>): seq<RetailResult>
  {
    if sheets == [] then []
    else
      var last := sheets[|sheets| - 1];
      var p := ProcessPositionData(last.table);
      SheetResults(exchange, sheets[..|sheets| - 1]) +
        (if p.Some? then [ResultOfRows(PositionAnalysis.ResultKey(exchange, last.name), p.value)] else [])
  }

  function AllResults(workbook: nat -> seq<Sheets.Sheet>, n: nat): seq<RetailResult>
    requires n <= |PositionAnalysis.Exchanges|
  {
    if n == 0 then [] else AllResults(workbook, n - 1) + SheetResults(PositionAnalysis.Exchanges[n - 1], workbook(n - 1))
  }

  /** `analyze_all_positions`: every exchange's workbook (empty when the file is missing), every sheet. */
  method AnalyzeAllPositions(workbook: nat -> seq<Sheets.Sheet>) returns (results: seq<RetailResult>)
    ensures results == AllResults(workbook, |PositionAnalysis.Exchanges|)
  {
    results := [];
    var e := 0;
    while e < |PositionAnalysis.Exchanges|
      invariant 0 <= e <= |PositionAnalysis.Exchanges|
      invariant results == AllResults(workbook, e)
    {
      var sheets := workbook(e);
      var i := 0;
      var here := [];
      while i < |sheets|
        invariant 0 <= i <= |sheets|
        invariant here == SheetResults(PositionAnalysis.Exchanges[e], sheets[..i])
      {
        assert sheets[..i + 1][..i] == sheets[..i];
        var processed := ProcessPositionData(sheets[i].table);
        if processed.Some? {
          var a := Analyze(processed.value, RetailSeats);
          var ratio := RetailRatio(a.verdict.direction, processed.value, RetailSeats);
          here := here + [RetailResult(PositionAnalysis.ResultKey(PositionAnalysis.Exchanges[e], sheets[i].name), a, ratio)];
        }
        i := i + 1;
      }
      assert sheets[..i] == sheets;
      results := results + here;
      e := e + 1;
    }
  }

  // ----- printed statistics -----

  function CountOf(results: seq<RetailResult>, d: Signals.Direction): nat
  {
    if results == [] then 0
    else CountOf(results[..|results| - 1], d) + (if results[|results| - 1].analysis.verdict.direction == d then 1 else 0)
  }

  /** The neutral-or-no-signal count `total - long - short` that `print_results` shows is never negative. */
  lemma {:induction false} NeutralCountNonNegative(results: seq<RetailResult>)
    ensures CountOf(results, Signals.Bullish) + CountOf(results, Signals.Bearish) <= |results|
  {
    if results != [] {
      NeutralCountNonNegative(results[..|results| - 1]);
    }
  }
}
