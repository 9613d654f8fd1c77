/**
 * The analysis helpers of `app_streamlit.py`: the term structure over real
 * prices (curves in symbol order), the aggregate retail-reverse rule, and the
 * summary page's variety extraction and cross-strategy resonance, where each
 * strategy names a variety at most once.
 */
module AppStreamlit {
  import opened Wrappers
  import Text
  import Sorting
  import Position
  import Signals
  import Curves
  import Utils

  // ----- term structure with prices -----

  /** One variety's curve: sorted by symbol, positive closes only; none below two contracts. */
  function CurveOf(rows: seq<Curves.PriceRow>, v: string): Option<Curves.CurveResult>
  {
    var kept := Curves.WithPositiveClose(Curves.BySymbol(Curves.RowsOfVariety(rows, v)));
    if |kept| < 2 then None
    else Some(Curves.CurveResult(v, Curves.StrictStructure(Curves.Closes(kept)), Curves.Symbols(kept), Curves.Closes(kept)))
  }

  function CurvesOf(rows: seq<Curves.PriceRow>, vs: seq<string>): seq<Curves.CurveResult>
  {
    if vs == [] then []
    else
      var c := CurveOf(rows, vs[|vs| - 1]);
      CurvesOf(rows, vs[..|vs| - 1]) + (if c.Some? then [c.value] else [])
  }

  /**
   * A curve as this page draws it: aligned lists of two or more, positive
   * closes, symbol order, strict label, made of exactly its variety's priced
   * rows.
   */
  ghost predicate WellFormedCurve(rows: seq<Curves.PriceRow>, c: Curves.CurveResult)
  {
    |c.contracts| == |c.closes| >= 2 &&
    (forall i :: 0 <= i < |c.closes| ==> c.closes[i] > 0.0) &&
    (forall i, j :: 0 <= i < j < |c.contracts| ==> Text.StrLe(c.contracts[i], c.contracts[j])) &&
    c.structure == Curves.StrictStructure(c.closes) &&
    Curves.DrawnFrom(rows, c)
  }

  /**
   * `analyze_term_structure_with_prices`: nothing without the three columns;
   * otherwise one well-formed curve per variety that has two priced contracts.
   */
  function TermStructureWithPrices(t: Curves.PriceTable): (r: seq<Curves.CurveResult>)
    ensures !Curves.HasCurveColumns(t) ==> r == []
    ensures forall c :: c in r ==> WellFormedCurve(t.rows, c)
    ensures forall i, j :: 0 <= i < j < |r| ==> r[i].variety != r[j].variety
  {
    if !Curves.HasCurveColumns(t) then []
    else
      CurvesWellFormed(t.rows, Curves.Varieties(t.rows));
      CurvesOf(t.rows, Curves.Varieties(t.rows))
  }

  lemma CurveOfWellFormed(rows: seq<Curves.PriceRow>, v: string)
    requires CurveOf(rows, v).Some?
    ensures CurveOf(rows, v).value.variety == v
    ensures WellFormedCurve(rows, CurveOf(rows, v).value)
  {
    var sorted := Curves.BySymbol(Curves.RowsOfVariety(rows, v));
    var kept := Curves.WithPositiveClose(sorted);
    Curves.BySymbolOrdered(Curves.RowsOfVariety(rows, v));
    Curves.FilterKeepsSymbolOrder(sorted);
    var c := CurveOf(rows, v).value;
    assert c.closes == Curves.Closes(kept) && c.contracts == Curves.Symbols(kept);
    assert |c.contracts| == |c.closes| >= 2;
    forall i | 0 <= i < |c.closes| ensures c.closes[i] > 0.0 {
      assert kept[i] in kept;
      assert Curves.PositiveClose(kept[i]);
    }
    forall i, j | 0 <= i < j < |c.contracts| ensures Text.StrLe(c.contracts[i], c.contracts[j]) {
      assert c.contracts[i] == kept[i].symbol && c.contracts[j] == kept[j].symbol;
    }
    KeptArePriced(rows, v);
  }

  /** Sorting before filtering keeps the same priced rows. */
  lemma KeptArePriced(rows: seq<Curves.PriceRow>, v: string)
    ensures multiset(Curves.WithPositiveClose(Curves.BySymbol(Curves.RowsOfVariety(rows, v)))) == multiset(Curves.Priced(rows, v))
    ensures |Curves.WithPositiveClose(Curves.BySymbol(Curves.RowsOfVariety(rows, v)))| == |Curves.Priced(rows, v)|
  {
    var mine := Curves.RowsOfVariety(rows, v);
    var sorted := Curves.BySymbol(mine);
    var kept := Curves.WithPositiveClose(sorted);
    Curves.BySymbolOrdered(mine);
    Curves.PricedPermutation(sorted, mine);
    assert multiset(kept) == multiset(Curves.WithPositiveClose(mine));
    assert |kept| == |multiset(kept)| == |multiset(Curves.WithPositiveClose(mine))| == |Curves.WithPositiveClose(mine)|;
  }

  /** Every variety of `vs` with two or more priced contracts gets its curve. */
  lemma {:induction false} CurvesOfComplete(rows: seq<Curves.PriceRow>, vs: seq<string>, v: string)
    requires v in vs && |Curves.Priced(rows, v)| >= 2
    ensures CurveOf(rows, v).Some? && CurveOf(rows, v).value in CurvesOf(rows, vs)
  {
    var init := vs[..|vs| - 1];
    if v == vs[|vs| - 1] {
      KeptArePriced(rows, v);
    } else {
      assert vs == init + [vs[|vs| - 1]];
      CurvesOfComplete(rows, init, v);
    }
  }

  /**
   * The page shows a curve for a variety exactly when the frame has the three
   * columns and the variety has two or more priced contracts.
   */
  lemma TermStructureWithPricesComplete(t: Curves.PriceTable, v: string)
    ensures (exists c :: c in TermStructureWithPrices(t) && c.variety == v) <==>
      Curves.HasCurveColumns(t) && v in Curves.Varieties(t.rows) && |Curves.Priced(t.rows, v)| >= 2
  {
    var vs := Curves.Varieties(t.rows);
    if Curves.HasCurveColumns(t) && v in vs && |Curves.Priced(t.rows, v)| >= 2 {
      CurvesOfComplete(t.rows, vs, v);
      CurveOfWellFormed(t.rows, v);
    } else if Curves.HasCurveColumns(t) {
      forall c | c in TermStructureWithPrices(t) ensures c.variety != v {
        Curves.DrawnSize(t.rows, c);
      }
    }
  }

  lemma WellFormedSnoc(rows: seq<Curves.PriceRow>, vs: seq<string>, prev: seq<Curves.CurveResult>, x: Curves.CurveResult)
    requires forall c :: c in prev ==> WellFormedCurve(rows, c) && c.variety in vs
    requires WellFormedCurve(rows, x) && x.variety in vs
    ensures forall c :: c in prev + [x] ==> WellFormedCurve(rows, c) && c.variety in vs
  {
  }

  lemma {:induction false} CurvesWellFormed(rows: seq<Curves.PriceRow>, vs: seq<string>)
    requires Position.NoDuplicates(vs)
    ensures forall c :: c in CurvesOf(rows, vs) ==> WellFormedCurve(rows, c) && c.variety in vs
    ensures Curves.DistinctVarieties(CurvesOf(rows, vs))
  {
    if vs != [] {
      var init := vs[..|vs| - 1];
      var v := vs[|vs| - 1];
      assert vs == init + [v];
      assert Position.NoDuplicates(init);
      CurvesWellFormed(rows, init);
      var prev := CurvesOf(rows, init);
      var c := CurveOf(rows, v);
      if c.Some? {
        assert CurvesOf(rows, vs) == prev + [c.value];
        CurveOfWellFormed(rows, v);
        WellFormedSnoc(rows, vs, prev, c.value);
        assert v !in init;
        Curves.DistinctVarietiesSnoc(prev, c.value);
      } else {
        assert CurvesOf(rows, vs) == prev;
      }
    }
  }

  lemma CurvesOfStep(rows: seq<Curves.PriceRow>, vs: seq<string>, i: nat)
    requires i < |vs|
    ensures CurvesOf(rows, vs[..i + 1]) ==
      CurvesOf(rows, vs[..i]) + (if CurveOf(rows, vs[i]).Some? then [CurveOf(rows, vs[i]).value] else [])
  {
    assert vs[..i + 1][..i] == vs[..i];
  }

  /** The loop over `df['variety'].unique()`. */
  method AnalyzeTermStructureWithPrices(t: Curves.PriceTable) returns (results: seq<Curves.CurveResult>)
    ensures results == TermStructureWithPrices(t)
  {
    if !Curves.HasCurveColumns(t) {
      return [];
    }
    results := [];
    var varieties := Curves.Varieties(t.rows);
    var i := 0;
    while i < |varieties|
      invariant 0 <= i <= |varieties|
      invariant results == CurvesOf(t.rows, varieties[..i])
    {
      CurvesOfStep(t.rows, varieties, i);
      var data := Curves.WithPositiveClose(Curves.BySymbol(Curves.RowsOfVariety(t.rows, varieties[i])));
      if |data| >= 2 {
        var closes := Curves.Closes(data);
        results := results + [Curves.CurveResult(varieties[i], Curves.StrictStructure(closes), Curves.Symbols(data), closes)];
      } else {
        assert results + [] == results;
      }
      i := i + 1;
    }
    assert varieties[..i] == varieties;
  }

  // ----- aggregate retail reverse -----

  /** The watched seats whose accumulated long or short change is not zero, with all four figures, in seat order. */
  function ChangedStats(rows: seq<Position.SeatRow>, order: seq<string>): seq<Position.SeatStats>
  {
    if order == [] then []
    else
      var x := Position.StatsOf(rows, order[0]);
      (if x.longChg != 0 || x.shortChg != 0 then [x] else []) + ChangedStats(rows, order[1..])
  }

  /** The details are exactly the figures of the watched seats whose long or short change is non-zero. */
  lemma {:induction false} ChangedStatsMeaning(rows: seq<Position.SeatRow>, order: seq<string>)
    ensures forall x :: x in ChangedStats(rows, order) ==>
      x.name in order && x == Position.StatsOf(rows, x.name) && (x.longChg != 0 || x.shortChg != 0)
    ensures forall s :: s in order && (Position.StatsOf(rows, s).longChg != 0 || Position.StatsOf(rows, s).shortChg != 0) ==>
      Position.StatsOf(rows, s) in ChangedStats(rows, order)
  {
    if order != [] {
      ChangedStatsMeaning(rows, order[1..]);
      var x := Position.StatsOf(rows, order[0]);
      var head := if x.longChg != 0 || x.shortChg != 0 then [x] else [];
      var rest := ChangedStats(rows, order[1..]);
      assert ChangedStats(rows, order) == head + rest;
      assert forall s :: s in order ==> s == order[0] || s in order[1..];
    }
  }

  function LongChgOf(x: Position.SeatStats): int { x.longChg }
  function ShortChgOf(x: Position.SeatStats): int { x.shortChg }
  function LongPosOf(x: Position.SeatStats): int { x.longPos }
  function ShortPosOf(x: Position.SeatStats): int { x.shortPos }

  /** `sum([seat[f] for seat in seat_details])`. */
  function StatSum(d: seq<Position.SeatStats>, f: Position.SeatStats -> int): int
  {
    if d == [] then 0 else f(d[0]) + StatSum(d[1..], f)
  }

  /** The analysis: a verdict and the changed seats' details. */
  datatype RetailOutcome = RetailOutcome(verdict: Signals.Verdict, details: seq<Position.SeatStats>)

  /**
   * The aggregate rule: the changed seats adding longs in total while not
   * adding shorts is bearish with their long share; the converse is bullish
   * with their short share; anything else is neutral, strength 0.
   */
  function AggregateVerdict(d: seq<Position.SeatStats>, tableLong: int, tableShort: int): (v: Signals.Verdict)
    ensures v.direction == Signals.Bearish <==> d != [] && StatSum(d, LongChgOf) > 0 && StatSum(d, ShortChgOf) <= 0
    ensures v.direction == Signals.Bullish <==> d != [] && StatSum(d, ShortChgOf) > 0 && StatSum(d, LongChgOf) <= 0
    ensures v.direction == Signals.Bearish ==> v.strength == (if tableLong > 0 then StatSum(d, LongPosOf) as real / tableLong as real else 0.0)
    ensures v.direction == Signals.Bullish ==> v.strength == (if tableShort > 0 then StatSum(d, ShortPosOf) as real / tableShort as real else 0.0)
    ensures v.direction != Signals.Bullish && v.direction != Signals.Bearish ==> v == Signals.Verdict(Signals.Neutral, 0.0)
  {
    if d == [] then Signals.Verdict(Signals.Neutral, 0.0)
    else
      var longChg := StatSum(d, LongChgOf);
      var shortChg := StatSum(d, ShortChgOf);
      if longChg > 0 && shortChg <= 0 then
        Signals.Verdict(Signals.Bearish, if tableLong > 0 then StatSum(d, LongPosOf) as real / tableLong as real else 0.0)
      else if shortChg > 0 && longChg <= 0 then
        Signals.Verdict(Signals.Bullish, if tableShort > 0 then StatSum(d, ShortPosOf) as real / tableShort as real else 0.0)
      else Signals.Verdict(Signals.Neutral, 0.0)
  }

  /** What `analyze_retail_reverse_strategy` answers for a table's rows and a list of seats. */
  function RetailReverse(rows: seq<Position.SeatRow>, seats: seq<string>): RetailOutcome
  {
    var d := ChangedStats(rows, Position.Dedup(seats));
    RetailOutcome(AggregateVerdict(d, Position.Total(rows, Position.LongOI), Position.Total(rows, Position.ShortOI)), d)
  }

  /** The seats this page watches. */
  const RetailSeats: seq<string> := Position.DefaultRetailSeats

  /** `analyze_retail_reverse_strategy`: accumulate, keep the changed seats, sum, apply the aggregate rule. */
  method AnalyzeRetailReverse(rows: seq<Position.SeatRow>, seats: seq<string>) returns (o: RetailOutcome)
    ensures o == RetailReverse(rows, seats)
  {
    var stats := Position.AccumulateSeatStats(rows, seats);
    var order := Position.Dedup(seats);
    var details := CollectChangedStats(rows, stats, order);
    if details == [] {
      return RetailOutcome(Signals.Verdict(Signals.Neutral, 0.0), []);
    }
    var longChg, shortChg, longPos, shortPos := SumStats(details);
    var tableLong := Position.Total(rows, Position.LongOI);
    var tableShort := Position.Total(rows, Position.ShortOI);
    var v;
    if longChg > 0 && shortChg <= 0 {
      v := Signals.Verdict(Signals.Bearish, if tableLong > 0 then longPos as real / tableLong as real else 0.0);
    } else if shortChg > 0 && longChg <= 0 {
      v := Signals.Verdict(Signals.Bullish, if tableShort > 0 then shortPos as real / tableShort as real else 0.0);
    } else {
      v := Signals.Verdict(Signals.Neutral, 0.0);
    }
    o := RetailOutcome(v, details);
  }

  method CollectChangedStats(rows: seq<Position.SeatRow>, stats: map<string, Position.SeatStats>, order: seq<string>)
    returns (details: seq<Position.SeatStats>)
    requires forall s :: s in order ==> s in stats && stats[s] == Position.StatsOf(rows, s)
    ensures details == ChangedStats(rows, order)
  {
    details := [];
    var i := 0;
    while i < |order|
      invariant 0 <= i <= |order|
      invariant ChangedStats(rows, order) == details + ChangedStats(rows, order[i..])
    {
      ChangedStatsStep(rows, order, i);
      var st := stats[order[i]];
      if st.longChg != 0 || st.shortChg != 0 {
        details := details + [st];
      }
      i := i + 1;
    }
  }

  lemma ChangedStatsStep(rows: seq<Position.SeatRow>, order: seq<string>, i: nat)
    requires i < |order|
    ensures ChangedStats(rows, order[i..]) ==
      (if Position.StatsOf(rows, order[i]).longChg != 0 || Position.StatsOf(rows, order[i]).shortChg != 0
       then [Position.StatsOf(rows, order[i])] else []) + ChangedStats(rows, order[i + 1..])
  {
    assert order[i..][1..] == order[i + 1..];
  }

  /** The four sums over the details. */
  method SumStats(d: seq<Position.SeatStats>) returns (longChg: int, shortChg: int, longPos: int, shortPos: int)
    ensures longChg == StatSum(d, LongChgOf) && shortChg == StatSum(d, ShortChgOf)
    ensures longPos == StatSum(d, LongPosOf) && shortPos == StatSum(d, ShortPosOf)
  {
    longChg, shortChg, longPos, shortPos := 0, 0, 0, 0;
    var i := 0;
    while i < |d|
      invariant 0 <= i <= |d|
      invariant longChg + StatSum(d[i..], LongChgOf) == StatSum(d, LongChgOf)
      invariant shortChg + StatSum(d[i..], ShortChgOf) == StatSum(d, ShortChgOf)
      invariant longPos + StatSum(d[i..], LongPosOf) == StatSum(d, LongPosOf)
      invariant shortPos + StatSum(d[i..], ShortPosOf) == StatSum(d, ShortPosOf)
    {
      assert d[i..][1..] == d[i + 1..];
      longChg := longChg + d[i].longChg;
      shortChg := shortChg + d[i].shortChg;
      longPos := longPos + d[i].longPos;
      shortPos := shortPos + d[i].shortPos;
      i := i + 1;
    }
  }

  /** With non-negative holdings the changed seats hold between 0 and what all watched seats hold. */
  lemma {:induction false} ChangedHoldingsBound(rows: seq<Position.SeatRow>, order: seq<string>)
    requires forall r :: r in rows ==> Position.Lots(r.longOI) >= 0 && Position.Lots(r.shortOI) >= 0
    ensures 0 <= StatSum(ChangedStats(rows, order), LongPosOf) <= Position.SeatsTotal(rows, order, Position.LongParty, Position.LongOI)
    ensures 0 <= StatSum(ChangedStats(rows, order), ShortPosOf) <= Position.SeatsTotal(rows, order, Position.ShortParty, Position.ShortOI)
  {
    if order != [] {
      ChangedHoldingsBound(rows, order[1..]);
      var x := Position.StatsOf(rows, order[0]);
      Position.SeatsTotalBound(rows, [order[0]], Position.LongParty, Position.LongOI);
      Position.SeatsTotalBound(rows, [order[0]], Position.ShortParty, Position.ShortOI);
      var rest := ChangedStats(rows, order[1..]);
      if x.longChg != 0 || x.shortChg != 0 {
        assert ([x] + rest)[0] == x && ([x] + rest)[1..] == rest;
      } else {
        assert [] + rest == rest;
      }
    }
  }

  /** With non-negative holdings the retail strength is a share: between 0 and 1. */
  lemma AggregateStrengthBound(rows: seq<Position.SeatRow>, seats: seq<string>)
    requires forall r :: r in rows ==> Position.Lots(r.longOI) >= 0 && Position.Lots(r.shortOI) >= 0
    ensures 0.0 <= RetailReverse(rows, seats).verdict.strength <= 1.0
  {
    var order := Position.Dedup(seats);
    var d := ChangedStats(rows, order);
    ChangedHoldingsBound(rows, order);
    Position.SeatsTotalBound(rows, order, Position.LongParty, Position.LongOI);
    Position.SeatsTotalBound(rows, order, Position.ShortParty, Position.ShortOI);
    var tl := Position.Total(rows, Position.LongOI);
    var ts := Position.Total(rows, Position.ShortOI);
    if tl > 0 {
      ShareBound(StatSum(d, LongPosOf), tl);
    }
    if ts > 0 {
      ShareBound(StatSum(d, ShortPosOf), ts);
    }
  }

  lemma ShareBound(a: int, b: int)
    requires b > 0 && 0 <= a <= b
    ensures 0.0 <= a as real / b as real <= 1.0
  {
    var q := a as real / b as real;
    assert q * b as real == a as real;
  }

  // ----- summary page: variety codes -----

  /** The Shanghai and Guangzhou codes the page names explicitly. */
  const ShfeCodes: seq<string> := ["cu", "al", "zn", "pb", "ni", "sn", "au", "ag", "rb", "wr", "hc", "ss", "fu", "bu", "ru", "nr", "sp", "lu", "bc", "ao", "ec"]
  const GfexCodes: seq<string> := ["si", "ps"]

  /** `code in codes`, one list entry at a time. */
  predicate Listed(code: string, codes: seq<string>)
  {
    codes != [] && (codes[0] == code || Listed(code, codes[1..]))
  }

  /** The nested `extract_symbol`, branch by branch. */
  function ExtractSymbol(contract: string): string
  {
    var symbol := Utils.SymbolPart(contract);
    if symbol == "PTA" then "PTA"
    else if |symbol| > 2 && symbol[..2] == "TA" then "TA"
    else if symbol == "OI" then "OI"
    else if Listed(Text.Lower(symbol), ShfeCodes) then Text.Upper(symbol)
    else if Listed(Text.Lower(symbol), GfexCodes) then Text.Upper(symbol)
    else symbol
  }

  /**
   * Every branch but the `TA` one gives back the upper-cased letters, which
   * are already upper case: the result is `TA` for a longer `TA...` code and
   * the letters otherwise, empty exactly when the contract has no letter.
   */
  lemma ExtractSymbolMeaning(contract: string)
    ensures ExtractSymbol(contract) ==
      if |Utils.SymbolPart(contract)| > 2 && Utils.SymbolPart(contract)[..2] == "TA" then "TA" else Utils.SymbolPart(contract)
    ensures ExtractSymbol(contract) == [] <==> Utils.SymbolPart(contract) == []
  {
    var symbol := Utils.SymbolPart(contract);
    Text.UpperIdempotent(symbol);
    assert "PTA"[..2][0] == 'P';
  }

  // ----- summary page: resonance -----

  const RetailStrategy: string := "家人席位反向操作策略"

  /** A strategy's first ten signals of one direction; the retail list is first re-sorted by strength. */
  function TopOf(s: Signals.StrategySignals, long: bool): seq<Signals.SignalEntry>
  {
    var list := if long then s.long else s.short;
    Sorting.Take(if s.name == RetailStrategy then Signals.ByStrength(list) else list, Signals.TopCount)
  }

  /** The set of non-empty codes `code` gives the entries of a list. */
  function CodeSet<T>(top: seq<T>, code: T -> string): set<string>
  {
    if top == [] then {}
    else
      var c := code(top[|top| - 1]);
      CodeSet(top[..|top| - 1], code) + (if c != [] then {c} else {})
  }

  lemma {:induction false} CodeSetMeaning<T>(top: seq<T>, code: T -> string, sym: string)
    ensures sym in CodeSet(top, code) <==> sym != [] && exists e :: e in top && code(e) == sym
  {
    if top != [] {
      var init := top[..|top| - 1];
      var last := top[|top| - 1];
      assert top == init + [last];
      CodeSetMeaning(init, code, sym);
      if sym != [] && exists e :: e in top && code(e) == sym {
        var e :| e in top && code(e) == sym;
        if e != last {
          assert e in init;
        }
      }
    }
  }

  lemma CodeSetSnoc<T>(top: seq<T>, j: nat, code: T -> string)
    requires j < |top|
    ensures CodeSet(top[..j + 1], code) == CodeSet(top[..j], code) + (if code(top[j]) != [] then {code(top[j])} else {})
  {
    var t := top[..j + 1];
    assert t[..|t| - 1] == top[..j] && t[|t| - 1] == top[j];
  }

  /** The code of one signal's contract. */
  function EntryCode(e: Signals.SignalEntry): string { ExtractSymbol(e.contract) }

  /** The set of non-empty codes extracted from a list of signals. */
  function SymbolSet(top: seq<Signals.SignalEntry>): set<string>
  {
    CodeSet(top, EntryCode)
  }

  /** The set holds exactly the non-empty codes of the list's contracts. */
  lemma SymbolSetMeaning(top: seq<Signals.SignalEntry>, sym: string)
    ensures sym in SymbolSet(top) <==> sym != [] && exists e :: e in top && ExtractSymbol(e.contract) == sym
  {
    CodeSetMeaning(top, EntryCode, sym);
  }

  /** One strategy's name and the codes it names in one direction. */
  datatype StrategyTop = StrategyTop(name: string, symbols: set<string>)

  /** `strategy_top_10` for one direction, strategy by strategy. */
  function TopsOf(signals: seq<Signals.StrategySignals>, long: bool): seq<StrategyTop>
  {
    if signals == [] then []
    else
      var s := signals[|signals| - 1];
      TopsOf(signals[..|signals| - 1], long) + [StrategyTop(s.name, SymbolSet(TopOf(s, long)))]
  }

  /** The names of the strategies naming `sym`, in strategy order. */
  function Naming(tops: seq<StrategyTop>, sym: string): seq<string>
  {
    if tops == [] then []
    else Naming(tops[..|tops| - 1], sym) + (if sym in tops[|tops| - 1].symbols then [tops[|tops| - 1].name] else [])
  }

  /** Every code any strategy names. */
  function Mentioned(tops: seq<StrategyTop>): set<string>
  {
    if tops == [] then {} else Mentioned(tops[..|tops| - 1]) + tops[|tops| - 1].symbols
  }

  /** What the count dictionary keeps per code: `count` and `strategies`. */
  datatype Appearance = Appearance(count: nat, strategies: seq<string>)

  function EntryOf(names: seq<string>): Appearance { Appearance(|names|, names) }

  /** The count dictionary after all of `tops` and the codes `done` of strategy `name`. */
  function Partial(tops: seq<StrategyTop>, name: string, done: set<string>): map<string, Appearance>
  {
    map sym | sym in Mentioned(tops) + done :: EntryOf(Naming(tops, sym) + (if sym in done then [name] else []))
  }

  /** The count dictionary of one direction. */
  function SymbolCount(tops: seq<StrategyTop>): map<string, Appearance>
  {
    Partial(tops, "", {})
  }

  /** The codes counted at least twice. */
  function Common(m: map<string, Appearance>): map<string, Appearance>
  {
    map sym | sym in m && m[sym].count >= 2 :: m[sym]
  }

  lemma {:induction false} NamingEmpty(tops: seq<StrategyTop>, sym: string)
    ensures sym !in Mentioned(tops) <==> Naming(tops, sym) == []
  {
    if tops != [] {
      NamingEmpty(tops[..|tops| - 1], sym);
    }
  }

  /** Registering one more code of the current strategy. */
  lemma PartialBump(tops: seq<StrategyTop>, name: string, done: set<string>, sym: string)
    requires sym !in done
    ensures Partial(tops, name, done + {sym}) ==
      Partial(tops, name, done)[sym := if sym in Partial(tops, name, done)
        then Appearance(Partial(tops, name, done)[sym].count + 1, Partial(tops, name, done)[sym].strategies + [name])
        else Appearance(1, [name])]
  {
    NamingEmpty(tops, sym);
    var before := Partial(tops, name, done);
    var after := Partial(tops, name, done + {sym});
    var bumped := before[sym := if sym in before
      then Appearance(before[sym].count + 1, before[sym].strategies + [name]) else Appearance(1, [name])];
    assert after.Keys == bumped.Keys;
    forall k | k in after ensures after[k] == bumped[k] {
      if k == sym {
        if sym in before {
          assert before[sym] == EntryOf(Naming(tops, sym));
        }
      } else {
        assert after[k] == before[k];
      }
    }
  }

  /** After all codes of a strategy, it is part of the finished prefix. */
  lemma PartialNext(tops: seq<StrategyTop>, i: nat)
    requires i < |tops|
    ensures Partial(tops[..i], tops[i].name, tops[i].symbols) == Partial(tops[..i + 1], "", {})
  {
    var next := tops[..i + 1];
    assert next[..|next| - 1] == tops[..i] && next[|next| - 1] == tops[i];
    assert Mentioned(next) == Mentioned(tops[..i]) + tops[i].symbols;
    var a := Partial(tops[..i], tops[i].name, tops[i].symbols);
    var b := Partial(next, "", {});
    assert a.Keys == b.Keys;
    forall k | k in a ensures a[k] == b[k] {
      assert Naming(next, k) == Naming(tops[..i], k) + (if k in tops[i].symbols then [tops[i].name] else []);
      assert Naming(next, k) + [] == Naming(next, k);
    }
  }

  /** The two counting loops of one direction: strategy by strategy, code by code. */
  method CountSymbols(tops: seq<StrategyTop>) returns (m: map<string, Appearance>)
    ensures m == SymbolCount(tops)
  {
    m := map[];
    var i := 0;
    assert tops[..0] == [];
    while i < |tops|
      invariant 0 <= i <= |tops|
      invariant m == Partial(tops[..i], "", {})
    {
      assert Partial(tops[..i], "", {}) == Partial(tops[..i], tops[i].name, {});
      m := CountStrategy(m, tops[..i], tops[i].name, tops[i].symbols);
      PartialNext(tops, i);
      i := i + 1;
    }
    assert tops[..i] == tops;
  }

  /** The inner loop: every code of one strategy's set bumps its entry. */
  method CountStrategy(m0: map<string, Appearance>, ghost prefix: seq<StrategyTop>, name: string, symbols: set<string>)
    returns (m: map<string, Appearance>)
    requires m0 == Partial(prefix, name, {})
    ensures m == Partial(prefix, name, symbols)
  {
    m := m0;
    var remaining := symbols;
    ghost var done: set<string> := {};
    while remaining != {}
      invariant done + remaining == symbols && done !! remaining
      invariant m == Partial(prefix, name, done)
      decreases |remaining|
    {
      var sym :| sym in remaining;
      assert sym !in done;
      PartialBump(prefix, name, done, sym);
      if sym in m {
        m := m[sym := Appearance(m[sym].count + 1, m[sym].strategies + [name])];
      } else {
        m := m[sym := Appearance(1, [name])];
      }
      SplitMove(done, remaining, sym);
      done := done + {sym};
      remaining := remaining - {sym};
    }
    assert done == symbols;
  }

  lemma SplitMove(done: set<string>, remaining: set<string>, sym: string)
    requires done !! remaining && sym in remaining
    ensures (done + {sym}) + (remaining - {sym}) == done + remaining
    ensures (done + {sym}) !! (remaining - {sym})
    ensures |remaining - {sym}| < |remaining|
  {
  }

  /** `strategy_top_10` and the two count dictionaries, cut to the codes counted at least twice. */
  method SignalResonance(signals: seq<Signals.StrategySignals>)
    returns (long: map<string, Appearance>, short: map<string, Appearance>)
    ensures long == Common(SymbolCount(TopsOf(signals, true)))
    ensures short == Common(SymbolCount(TopsOf(signals, false)))
  {
    var longTops, shortTops := CollectTops(signals);
    var longCount := CountSymbols(longTops);
    var shortCount := CountSymbols(shortTops);
    long := map sym | sym in longCount && longCount[sym].count >= 2 :: longCount[sym];
    short := map sym | sym in shortCount && shortCount[sym].count >= 2 :: shortCount[sym];
  }

  lemma TopsOfStep(signals: seq<Signals.StrategySignals>, long: bool, i: nat)
    requires i < |signals|
    ensures TopsOf(signals[..i + 1], long) ==
      TopsOf(signals[..i], long) + [StrategyTop(signals[i].name, SymbolSet(TopOf(signals[i], long)))]
  {
    assert signals[..i + 1][..i] == signals[..i];
  }

  /** The loop building `strategy_top_10`: each strategy's set of codes among its first ten signals. */
  method CollectTops(signals: seq<Signals.StrategySignals>) returns (longTops: seq<StrategyTop>, shortTops: seq<StrategyTop>)
    ensures longTops == TopsOf(signals, true)
    ensures shortTops == TopsOf(signals, false)
  {
    longTops := [];
    shortTops := [];
    var i := 0;
    while i < |signals|
      invariant 0 <= i <= |signals|
      invariant longTops == TopsOf(signals[..i], true)
      invariant shortTops == TopsOf(signals[..i], false)
    {
      TopsOfStep(signals, true, i);
      TopsOfStep(signals, false, i);
      var longSymbols := CollectCodes(TopOf(signals[i], true), EntryCode);
      var shortSymbols := CollectCodes(TopOf(signals[i], false), EntryCode);
      longTops := longTops + [StrategyTop(signals[i].name, longSymbols)];
      shortTops := shortTops + [StrategyTop(signals[i].name, shortSymbols)];
      i := i + 1;
    }
    assert signals[..i] == signals;
  }

  /** The loop that collects one list's codes, skipping the empty ones. */
  method CollectCodes<T>(top: seq<T>, code: T -> string) returns (symbols: set<string>)
    ensures symbols == CodeSet(top, code)
  {
    symbols := {};
    var j := 0;
    while j < |top|
      invariant 0 <= j <= |top|
      invariant symbols == CodeSet(top[..j], code)
    {
      CodeSetSnoc(top, j, code);
      var symbol := code(top[j]);
      if symbol != [] {
        symbols := symbols + {symbol};
      } else {
        assert symbols + {} == symbols;
      }
      j := j + 1;
    }
    assert top[..j] == top;
  }


  /** A code's entry lists exactly the strategies naming it, each once: at most one per strategy. */
  lemma {:induction false} NamingMeaning(tops: seq<StrategyTop>, sym: string)
    ensures |Naming(tops, sym)| <= |tops|
    ensures forall n :: n in Naming(tops, sym) ==> exists i :: 0 <= i < |tops| && tops[i].name == n && sym in tops[i].symbols
    ensures forall i :: 0 <= i < |tops| && sym in tops[i].symbols ==> tops[i].name in Naming(tops, sym)
  {
    if tops != [] {
      var init := tops[..|tops| - 1];
      NamingMeaning(init, sym);
      forall n | n in Naming(tops, sym) ensures exists i :: 0 <= i < |tops| && tops[i].name == n && sym in tops[i].symbols {
        if n in Naming(init, sym) {
          var i :| 0 <= i < |init| && init[i].name == n && sym in init[i].symbols;
          assert tops[i] == init[i];
        } else {
          assert tops[|tops| - 1].name == n;
        }
      }
      forall i | 0 <= i < |tops| && sym in tops[i].symbols ensures tops[i].name in Naming(tops, sym) {
        if i < |init| {
          assert tops[i] == init[i];
        }
      }
    }
  }

  /** Two strategies name a code, or one names it: the two counts the page distinguishes. */
  lemma {:induction false} NamingCount(tops: seq<StrategyTop>, sym: string)
    ensures |Naming(tops, sym)| >= 1 <==> exists i :: 0 <= i < |tops| && sym in tops[i].symbols
    ensures |Naming(tops, sym)| >= 2 <==> exists i, j :: 0 <= i < j < |tops| && sym in tops[i].symbols && sym in tops[j].symbols
  {
    if tops != [] {
      var init := tops[..|tops| - 1];
      var k := |tops| - 1;
      NamingCount(init, sym);
      assert forall i :: 0 <= i < |init| ==> tops[i] == init[i];
      if exists i, j :: 0 <= i < j < |tops| && sym in tops[i].symbols && sym in tops[j].symbols {
        var i, j :| 0 <= i < j < |tops| && sym in tops[i].symbols && sym in tops[j].symbols;
        if j < k {
          assert sym in init[i].symbols && sym in init[j].symbols;
        } else {
          assert sym in init[i].symbols;
        }
      }
      if exists i :: 0 <= i < |tops| && sym in tops[i].symbols {
        var i :| 0 <= i < |tops| && sym in tops[i].symbols;
        if i < k {
          assert sym in init[i].symbols;
        }
      }
      if |Naming(tops, sym)| >= 2 && sym in tops[k].symbols {
        var i :| 0 <= i < |init| && sym in init[i].symbols;
        assert sym in tops[i].symbols;
      }
    }
  }

  /**
   * A code is reported exactly when two different strategies name it among
   * their first ten signals; its count is the number of strategies naming it
   * and never exceeds the number of strategies.
   */
  lemma CommonMeaning(tops: seq<StrategyTop>, sym: string)
    ensures sym in Common(SymbolCount(tops)) <==>
      exists i, j :: 0 <= i < j < |tops| && sym in tops[i].symbols && sym in tops[j].symbols
    ensures sym in SymbolCount(tops) ==> SymbolCount(tops)[sym] == EntryOf(Naming(tops, sym)) && SymbolCount(tops)[sym].count <= |tops|
  {
    NamingEmpty(tops, sym);
    NamingCount(tops, sym);
    NamingMeaning(tops, sym);
    assert Naming(tops, sym) + [] == Naming(tops, sym);
  }
}
