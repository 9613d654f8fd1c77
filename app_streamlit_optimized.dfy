/**
 * The analysis helpers of `app_streamlit_optimized.py`: a term structure over
 * the first ten varieties classified by the curve's endpoints only, and a
 * resonance that counts every one of a strategy's first ten signals. Its
 * retail-reverse function is the one of `app_streamlit.py`, modelled there.
 */
module AppStreamlitOptimized {
  import opened Wrappers
  import Sorting
  import Position
  import Signals
  import Curves
  import Utils
  import Text
  import AppStreamlit

  // ----- simplified term structure -----

  /** How many varieties are analysed (`unique()[:10]`). */
  const MaxVarieties: nat := 10

  /** The endpoint rule: first close above the last is back, below is contango, equal is flat. */
  function EndpointStructure(p: seq<real>): (s: Curves.Structure)
    requires |p| > 0
    ensures s == Curves.Back <==> p[0] > p[|p| - 1]
    ensures s == Curves.Contango <==> p[0] < p[|p| - 1]
  {
    if p[0] > p[|p| - 1] then Curves.Back
    else if p[0] < p[|p| - 1] then Curves.Contango
    else Curves.Flat
  }

  /** Where the strict rule sees a monotone curve, the endpoint rule agrees. */
  lemma EndpointRefinesStrict(p: seq<real>)
    requires |p| >= 2
    requires Curves.StrictStructure(p) != Curves.Flat
    ensures EndpointStructure(p) == Curves.StrictStructure(p)
  {
    if Curves.StrictStructure(p) == Curves.Back {
      Curves.DecreasingEverywhere(p, 0, |p| - 1);
    } else {
      Curves.IncreasingEverywhere(p, 0, |p| - 1);
    }
  }

  /** The two rules differ: a curve that rises and then falls below its start is back here but flat under the strict rule. */
  lemma EndpointCanDisagree()
    ensures EndpointStructure([3.0, 4.0, 1.0]) == Curves.Back
    ensures Curves.StrictStructure([3.0, 4.0, 1.0]) == Curves.Flat
  {
    Curves.MixedStepsAreFlat([3.0, 4.0, 1.0], 0, 1);
  }

  function CurveOf(rows: seq<Curves.PriceRow>, v: string): Option<Curves.CurveResult>
  {
    var kept := Curves.WithPositiveClose(Curves.BySymbol(Curves.RowsOfVariety(rows, v)));
    if |kept| < 2 then None
    else Some(Curves.CurveResult(v, EndpointStructure(Curves.Closes(kept)), Curves.Symbols(kept), Curves.Closes(kept)))
  }

  function CurvesOf(rows: seq<Curves.PriceRow>, vs: seq<string>): (r: seq<Curves.CurveResult>)
    ensures |r| <= |vs|
    ensures forall c :: c in r ==> c.variety in vs && |c.contracts| == |c.closes| >= 2
  {
    if vs == [] then []
    else
      var init := vs[..|vs| - 1];
      var c := CurveOf(rows, vs[|vs| - 1]);
      assert vs == init + [vs[|vs| - 1]];
      CurvesOf(rows, init) + (if c.Some? then [c.value] else [])
  }

  /**
   * A curve as this page draws it: aligned lists of two or more, positive
   * closes, symbol order, the endpoint label, made of exactly its variety's
   * priced rows.
   */
  ghost predicate WellFormedCurve(rows: seq<Curves.PriceRow>, c: Curves.CurveResult)
  {
    |c.contracts| == |c.closes| >= 2 &&
    (forall i :: 0 <= i < |c.closes| ==> c.closes[i] > 0.0) &&
    (forall i, j :: 0 <= i < j < |c.contracts| ==> Text.StrLe(c.contracts[i], c.contracts[j])) &&
    c.structure == EndpointStructure(c.closes) &&
    Curves.DrawnFrom(rows, c)
  }

  /** The curve is the full page's curve of the same rows, labelled by its endpoints. */
  lemma CurveOfWellFormed(rows: seq<Curves.PriceRow>, v: string)
    requires CurveOf(rows, v).Some?
    ensures CurveOf(rows, v).value.variety == v
    ensures WellFormedCurve(rows, CurveOf(rows, v).value)
  {
    var kept := Curves.WithPositiveClose(Curves.BySymbol(Curves.RowsOfVariety(rows, v)));
    var full := Curves.CurveResult(v, Curves.StrictStructure(Curves.Closes(kept)), Curves.Symbols(kept), Curves.Closes(kept));
    var c := Curves.CurveResult(v, EndpointStructure(Curves.Closes(kept)), Curves.Symbols(kept), Curves.Closes(kept));
    assert AppStreamlit.CurveOf(rows, v) == Some(full);
    assert CurveOf(rows, v) == Some(c);
    AppStreamlit.CurveOfWellFormed(rows, v);
    assert AppStreamlit.WellFormedCurve(rows, full);
  }

  lemma WellFormedSnoc(rows: seq<Curves.PriceRow>, prev: seq<Curves.CurveResult>, x: Curves.CurveResult)
    requires forall c :: c in prev ==> WellFormedCurve(rows, c)
    requires WellFormedCurve(rows, x)
    ensures forall c :: c in prev + [x] ==> WellFormedCurve(rows, c)
  {
  }

  lemma {:induction false} CurvesWellFormed(rows: seq<Curves.PriceRow>, vs: seq<string>)
    requires Position.NoDuplicates(vs)
    ensures forall c :: c in CurvesOf(rows, vs) ==> WellFormedCurve(rows, c)
    ensures Curves.DistinctVarieties(CurvesOf(rows, vs))
  {
    if vs != [] {
      var init := vs[..|vs| - 1];
      var v := vs[|vs| - 1];
      assert vs == init + [v];
      assert Position.NoDuplicates(init);
      CurvesWellFormed(rows, init);
      var prev := CurvesOf(rows, init);
      var c := CurveOf(rows, v);
      if c.Some? {
        assert CurvesOf(rows, vs) == prev + [c.value];
        CurveOfWellFormed(rows, v);
        WellFormedSnoc(rows, prev, c.value);
        assert v !in init;
        Curves.DistinctVarietiesSnoc(prev, c.value);
      } else {
        assert CurvesOf(rows, vs) == prev;
      }
    }
  }

  /** Every variety of `vs` with two or more priced contracts gets its curve. */
  lemma {:induction false} CurvesOfComplete(rows: seq<Curves.PriceRow>, vs: seq<string>, v: string)
    requires v in vs && |Curves.Priced(rows, v)| >= 2
    ensures CurveOf(rows, v).Some? && CurveOf(rows, v).value in CurvesOf(rows, vs)
  {
    var init := vs[..|vs| - 1];
    if v == vs[|vs| - 1] {
      AppStreamlit.KeptArePriced(rows, v);
    } else {
      assert vs == init + [vs[|vs| - 1]];
      CurvesOfComplete(rows, init, v);
    }
  }

  /** The first ten varieties, in order of first appearance. */
  function FirstVarieties(rows: seq<Curves.PriceRow>): (vs: seq<string>)
    ensures Position.NoDuplicates(vs)
  {
    var all := Curves.Varieties(rows);
    var vs := Sorting.Take(all, MaxVarieties);
    assert forall i :: 0 <= i < |vs| ==> vs[i] == all[i];
    vs
  }

  /**
   * `analyze_term_structure_simple`: nothing for an empty frame or one
   * without the three columns; otherwise at most ten well-formed curves, each
   * for one of the first ten varieties, no variety twice.
   */
  function TermStructureSimple(t: Curves.PriceTable): (r: seq<Curves.CurveResult>)
    ensures t.rows == [] || !Curves.HasCurveColumns(t) ==> r == []
    ensures |r| <= MaxVarieties
    ensures forall c :: c in r ==> c.variety in FirstVarieties(t.rows) && WellFormedCurve(t.rows, c)
    ensures Curves.DistinctVarieties(r)
  {
    if t.rows == [] || !Curves.HasCurveColumns(t) then []
    else
      CurvesWellFormed(t.rows, FirstVarieties(t.rows));
      CurvesOf(t.rows, FirstVarieties(t.rows))
  }

  /**
   * The page shows a curve for a variety exactly when the frame has the three
   * columns and the variety is among the first ten and has two or more
   * priced contracts.
   */
  lemma TermStructureSimpleComplete(t: Curves.PriceTable, v: string)
    ensures (exists c :: c in TermStructureSimple(t) && c.variety == v) <==>
      Curves.HasCurveColumns(t) && v in FirstVarieties(t.rows) && |Curves.Priced(t.rows, v)| >= 2
  {
    var vs := FirstVarieties(t.rows);
    if Curves.HasCurveColumns(t) && v in vs && |Curves.Priced(t.rows, v)| >= 2 {
      CurvesOfComplete(t.rows, vs, v);
      CurveOfWellFormed(t.rows, v);
    } else {
      forall c | c in TermStructureSimple(t) ensures c.variety != v {
        Curves.DrawnSize(t.rows, c);
      }
    }
  }

  /** On the same curve the simplified page and the full page agree whenever the full page finds it monotone. */
  lemma AgreesWithFullPageWhenMonotone(rows: seq<Curves.PriceRow>, v: string)
    requires AppStreamlit.CurveOf(rows, v).Some?
    requires AppStreamlit.CurveOf(rows, v).value.structure != Curves.Flat
    ensures CurveOf(rows, v) == AppStreamlit.CurveOf(rows, v)
  {
    EndpointRefinesStrict(AppStreamlit.CurveOf(rows, v).value.closes);
  }

  lemma CurvesOfStep(rows: seq<Curves.PriceRow>, vs: seq<string>, i: nat)
    requires i < |vs|
    ensures CurvesOf(rows, vs[..i + 1]) ==
      CurvesOf(rows, vs[..i]) + (if CurveOf(rows, vs[i]).Some? then [CurveOf(rows, vs[i]).value] else [])
  {
    assert vs[..i + 1][..i] == vs[..i];
  }

  /** The loop over the first ten varieties. */
  method AnalyzeTermStructureSimple(t: Curves.PriceTable) returns (results: seq<Curves.CurveResult>)
    ensures results == TermStructureSimple(t)
  {
    if t.rows == [] || !Curves.HasCurveColumns(t) {
      return [];
    }
    results := AnalyzeVarieties(t.rows, FirstVarieties(t.rows));
  }

  /** The variety loop: one curve per variety with two or more priced contracts, in order. */
  method AnalyzeVarieties(rows: seq<Curves.PriceRow>, varieties: seq<string>) returns (results: seq<Curves.CurveResult>)
    ensures results == CurvesOf(rows, varieties)
  {
    results := [];
    var i := 0;
    while i < |varieties|
      invariant 0 <= i <= |varieties|
      invariant results == CurvesOf(rows, varieties[..i])
    {
      CurvesOfStep(rows, varieties, i);
      var curve := BuildCurve(rows, varieties[i]);
      if curve.Some? {
        results := results + [curve.value];
      } else {
        assert results + [] == results;
      }
      i := i + 1;
    }
    assert varieties[..i] == varieties;
  }

  /** The body of the variety loop: select, sort by symbol, keep positive closes, skip short curves, compare the ends. */
  method BuildCurve(rows: seq<Curves.PriceRow>, v: string) returns (c: Option<Curves.CurveResult>)
    ensures c == CurveOf(rows, v)
  {
    var data := Curves.WithPositiveClose(Curves.BySymbol(Curves.RowsOfVariety(rows, v)));
    if |data| < 2 {
      return None;
    }
    var closes := Curves.Closes(data);
    c := Some(Curves.CurveResult(v, EndpointStructure(closes), Curves.Symbols(data), closes));
  }

  // ----- summary page: resonance per signal -----

  /** The nested `extract_symbol`: the letters after the last `_`, upper-cased, or none when there is no letter. */
  function ExtractSymbol(contract: string): Option<string>
  {
    var symbol := Utils.SymbolPart(contract);
    if symbol != [] then Some(symbol) else None
  }

  /** No code when the contract has no letter after its last `_`; otherwise the code `extract_symbol_from_contract` finds. */
  lemma ExtractSymbolMeaning(contract: string)
    ensures ExtractSymbol(contract).None? <==> Utils.SymbolPart(contract) == []
    ensures ExtractSymbol(contract).Some? ==> ExtractSymbol(contract).value == Utils.ExtractSymbolFromContract(contract)
  {
  }

  /** Where the full page finds a code, this page finds the same code unless the full page folded it to `TA`. */
  lemma ExtractSymbolAgainstFullPage(contract: string)
    ensures ExtractSymbol(contract).None? <==> AppStreamlit.ExtractSymbol(contract) == []
    ensures ExtractSymbol(contract).Some? && AppStreamlit.ExtractSymbol(contract) != "TA" ==>
      ExtractSymbol(contract).value == AppStreamlit.ExtractSymbol(contract)
  {
    ExtractSymbolMeaning(contract);
    AppStreamlit.ExtractSymbolMeaning(contract);
  }

  /** The mentions one list contributes: one per signal with a code, in order. */
  function ListMentions(name: string, top: seq<Signals.SignalEntry>): seq<Signals.Mention>
  {
    if top == [] then []
    else
      var sym := ExtractSymbol(top[|top| - 1].contract);
      ListMentions(name, top[..|top| - 1]) + (if sym.Some? then [Signals.Mention(sym.value, name, [])] else [])
  }

  /** All mentions of one direction: every strategy's first ten signals, in strategy order. */
  function DirectionMentions(signals: seq<Signals.StrategySignals>, long: bool): seq<Signals.Mention>
  {
    if signals == [] then []
    else
      var s := signals[|signals| - 1];
      DirectionMentions(signals[..|signals| - 1], long) + ListMentions(s.name, Sorting.Take(if long then s.long else s.short, Signals.TopCount))
  }

  lemma {:induction false} ListMentionsBound(name: string, top: seq<Signals.SignalEntry>)
    ensures |ListMentions(name, top)| <= |top|
  {
    if top != [] {
      ListMentionsBound(name, top[..|top| - 1]);
    }
  }

  /** Each strategy contributes at most ten mentions per direction. */
  lemma {:induction false} DirectionMentionsBound(signals: seq<Signals.StrategySignals>, long: bool)
    ensures |DirectionMentions(signals, long)| <= Signals.TopCount * |signals|
  {
    if signals != [] {
      var s := signals[|signals| - 1];
      DirectionMentionsBound(signals[..|signals| - 1], long);
      ListMentionsBound(s.name, Sorting.Take(if long then s.long else s.short, Signals.TopCount));
    }
  }

  /** Registering one list's mentions on top of a tally. */
  method TallyList(m: map<string, Signals.Resonance>, ghost before: seq<Signals.Mention>, name: string, top: seq<Signals.SignalEntry>)
    returns (r: map<string, Signals.Resonance>)
    requires m == Signals.Tally(before)
    ensures r == Signals.Tally(before + ListMentions(name, top))
  {
    r := m;
    ghost var done := before;
    var j := 0;
    assert before + ListMentions(name, top[..0]) == before;
    while j < |top|
      invariant 0 <= j <= |top|
      invariant done == before + ListMentions(name, top[..j])
      invariant r == Signals.Tally(done)
    {
      var symbol := ExtractSymbol(top[j].contract);
      ListMentionsSnoc(before, name, top, j);
      if symbol.Some? {
        var e := Signals.Mention(symbol.value, name, []);
        Signals.TallySnoc(done, e);
        r := Signals.Bump(r, e);
        done := done + [e];
      } else {
        assert done + [] == done;
      }
      j := j + 1;
    }
    assert top[..j] == top;
  }

  lemma ListMentionsSnoc(before: seq<Signals.Mention>, name: string, top: seq<Signals.SignalEntry>, j: nat)
    requires j < |top|
    ensures var sym := ExtractSymbol(top[j].contract);
      before + ListMentions(name, top[..j + 1]) ==
      (before + ListMentions(name, top[..j])) + if sym.Some? then [Signals.Mention(sym.value, name, [])] else []
  {
    var t1 := top[..j + 1];
    assert t1[..|t1| - 1] == top[..j] && t1[|t1| - 1] == top[j];
    var sym := ExtractSymbol(top[j].contract);
    var tail := if sym.Some? then [Signals.Mention(sym.value, name, [])] else [];
    var init := ListMentions(name, top[..j]);
    assert ListMentions(name, t1) == init + tail;
    assert before + (init + tail) == (before + init) + tail;
  }

  lemma DirectionMentionsStep(signals: seq<Signals.StrategySignals>, long: bool, i: nat)
    requires i < |signals|
    ensures DirectionMentions(signals[..i + 1], long) == DirectionMentions(signals[..i], long) +
      ListMentions(signals[i].name, Sorting.Take(if long then signals[i].long else signals[i].short, Signals.TopCount))
  {
    assert signals[..i + 1][..i] == signals[..i];
  }

  /** The counting loop of the summary page: every strategy's first ten signals of each direction. */
  method CountMentions(signals: seq<Signals.StrategySignals>)
    returns (longCount: map<string, Signals.Resonance>, shortCount: map<string, Signals.Resonance>)
    ensures longCount == Signals.Tally(DirectionMentions(signals, true))
    ensures shortCount == Signals.Tally(DirectionMentions(signals, false))
  {
    longCount := map[];
    shortCount := map[];
    var i := 0;
    while i < |signals|
      invariant 0 <= i <= |signals|
      invariant longCount == Signals.Tally(DirectionMentions(signals[..i], true))
      invariant shortCount == Signals.Tally(DirectionMentions(signals[..i], false))
    {
      DirectionMentionsStep(signals, true, i);
      DirectionMentionsStep(signals, false, i);
      var s := signals[i];
      longCount := TallyList(longCount, DirectionMentions(signals[..i], true), s.name, Sorting.Take(s.long, Signals.TopCount));
      shortCount := TallyList(shortCount, DirectionMentions(signals[..i], false), s.name, Sorting.Take(s.short, Signals.TopCount));
      i := i + 1;
    }
    assert signals[..i] == signals;
  }

  /** The counting loop of the summary page and the cut to codes counted at least twice. */
  method SignalResonance(signals: seq<Signals.StrategySignals>)
    returns (long: map<string, Signals.Resonance>, short: map<string, Signals.Resonance>)
    ensures long == Signals.Resonant(Signals.Tally(DirectionMentions(signals, true)))
    ensures short == Signals.Resonant(Signals.Tally(DirectionMentions(signals, false)))
  {
    var longCount, shortCount := CountMentions(signals);
    long := map sym | sym in longCount && longCount[sym].count >= 2 :: longCount[sym];
    short := map sym | sym in shortCount && shortCount[sym].count >= 2 :: shortCount[sym];
  }

  /**
   * A code is reported exactly when it is mentioned at least twice in all, so
   * one strategy alone listing two contracts of a variety makes it resonate;
   * its count is its number of mentions and the length of its strategy list.
   */
  lemma ResonanceMeaning(signals: seq<Signals.StrategySignals>, long: bool, symbol: string)
    ensures var es := DirectionMentions(signals, long);
      (symbol in Signals.Resonant(Signals.Tally(es)) <==> Signals.Occurrences(es, symbol) >= 2) &&
      (symbol in Signals.Tally(es) ==>
        Signals.Tally(es)[symbol].count == Signals.Occurrences(es, symbol) &&
        Signals.Tally(es)[symbol].count == |Signals.Tally(es)[symbol].strategies|)
  {
    var es := DirectionMentions(signals, long);
    Signals.ResonantIff(es, symbol);
    Signals.TallyCounts(es, symbol);
    Signals.TallyWellFormed(es);
  }

  lemma CodeOfRb(digits: string)
    requires Text.AllDigits(digits) && '_' !in digits
    ensures ExtractSymbol("SHFE_rb" + digits) == Some("RB")
  {
    var c := "SHFE_rb" + digits;
    assert c == "SHFE" + "_" + "rb" + digits by {
      assert "SHFE" + "_" + "rb" == "SHFE_rb";
    }
    Utils.ExtractSymbolOfCode("SHFE", "rb", digits);
    assert Text.Upper("rb") == "RB";
    assert Utils.ExtractSymbolFromContract(c) == "RB";
    assert |c| >= 7;
    assert Utils.SymbolPart(c) != [];
  }

  /** Two signals on contracts of the same variety give two mentions of its code. */
  lemma TwoMentions(name: string, a: string, b: string)
    requires Text.AllDigits(a) && Text.AllDigits(b) && '_' !in a && '_' !in b
    ensures ListMentions(name, [Signals.SignalEntry("SHFE_rb" + a, 1.0), Signals.SignalEntry("SHFE_rb" + b, 0.5)]) ==
      [Signals.Mention("RB", name, []), Signals.Mention("RB", name, [])]
  {
    CodeOfRb(a);
    CodeOfRb(b);
    var top := [Signals.SignalEntry("SHFE_rb" + a, 1.0), Signals.SignalEntry("SHFE_rb" + b, 0.5)];
    assert top[..1] == [top[0]];
    assert ListMentions(name, top[..1]) == [Signals.Mention("RB", name, [])] by {
      assert top[..1][..0] == [];
    }
  }

  /** A strategy alone listing two contracts of one variety makes that variety resonate here, unlike on the full page. */
  lemma OneStrategyCanResonate(name: string, a: string, b: string)
    requires Text.AllDigits(a) && Text.AllDigits(b) && '_' !in a && '_' !in b
    ensures var s := Signals.StrategySignals(name, [Signals.SignalEntry("SHFE_rb" + a, 1.0), Signals.SignalEntry("SHFE_rb" + b, 0.5)], []);
      "RB" in Signals.Resonant(Signals.Tally(DirectionMentions([s], true)))
  {
    var s := Signals.StrategySignals(name, [Signals.SignalEntry("SHFE_rb" + a, 1.0), Signals.SignalEntry("SHFE_rb" + b, 0.5)], []);
    assert Sorting.Take(s.long, Signals.TopCount) == s.long;
    TwoMentions(name, a, b);
    var es := DirectionMentions([s], true);
    assert es == DirectionMentions([], true) + ListMentions(name, s.long) by {
      assert [s][..0] == [];
    }
    assert es == [Signals.Mention("RB", name, []), Signals.Mention("RB", name, [])];
    Signals.ResonantIff(es, "RB");
    assert es[..1][..0] == [];
  }
}
