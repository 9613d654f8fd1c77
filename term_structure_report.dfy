/**
 * The stand-alone term-structure report (`analyze_term_structure.py`): every
 * variety of the table read from a price workbook (its first sheet)
 * classified by the strict rule, with no filter on the closes, and the report
 * that files each result under one of the three structures.
 */
module TermStructureReport {
  import opened Wrappers
  import Text
  import Position
  import Curves

  /** One variety's result: the closes are kept as read, a missing one is `None` (NaN). */
  datatype Curve = Curve(variety: string, structure: Curves.Structure, contracts: seq<string>, closes: seq<Option<real>>)

  /** A comparison with NaN is false, so a missing close neither falls nor rises. */
  predicate Falls(a: Option<real>, b: Option<real>) { a.Some? && b.Some? && a.value > b.value }
  predicate Rises(a: Option<real>, b: Option<real>) { a.Some? && b.Some? && a.value < b.value }

  predicate AllFall(p: seq<Option<real>>) { forall i :: 0 <= i < |p| - 1 ==> Falls(p[i], p[i + 1]) }
  predicate AllRise(p: seq<Option<real>>) { forall i :: 0 <= i < |p| - 1 ==> Rises(p[i], p[i + 1]) }

  /** `is_decreasing` is tested first, then `is_increasing`; anything else is flat. */
  function Classify(p: seq<Option<real>>): Curves.Structure
  {
    if AllFall(p) then Curves.Back
    else if AllRise(p) then Curves.Contango
    else Curves.Flat
  }

  function Values(p: seq<Option<real>>): (v: seq<real>)
    ensures |v| == |p| && forall i :: 0 <= i < |p| ==> v[i] == p[i].GetOr(0.0)
  {
    if p == [] then [] else [p[0].GetOr(0.0)] + Values(p[1..])
  }

  /** With every close present, the rule is the analyser's strict rule on the numbers. */
  lemma ClassifyIsStrict(p: seq<Option<real>>)
    requires |p| >= 2
    requires forall i :: 0 <= i < |p| ==> p[i].Some?
    ensures Classify(p) == Curves.StrictStructure(Values(p))
  {
    var v := Values(p);
    assert AllFall(p) <==> Curves.StrictlyDecreasing(v);
    assert AllRise(p) <==> Curves.StrictlyIncreasing(v);
  }

  /** A single missing close makes the whole curve flat. */
  lemma MissingCloseIsFlat(p: seq<Option<real>>, k: nat)
    requires |p| >= 2 && k < |p| && p[k].None?
    ensures Classify(p) == Curves.Flat
  {
    var i := if k < |p| - 1 then k else k - 1;
    assert !Falls(p[i], p[i + 1]) && !Rises(p[i], p[i + 1]);
  }

  /** The close column as read. */
  function CloseCells(rows: seq<Curves.PriceRow>): (c: seq<Option<real>>)
    ensures |c| == |rows| && forall i :: 0 <= i < |rows| ==> c[i] == rows[i].close
  {
    if rows == [] then [] else [rows[0].close] + CloseCells(rows[1..])
  }

  /** One variety: its rows in symbol order; none below two contracts. */
  function CurveOf(rows: seq<Curves.PriceRow>, v: string): Option<Curve>
  {
    var sorted := Curves.BySymbol(Curves.RowsOfVariety(rows, v));
    if |sorted| < 2 then None
    else Some(Curve(v, Classify(CloseCells(sorted)), Curves.Symbols(sorted), CloseCells(sorted)))
  }

  function CurvesOf(rows: seq<Curves.PriceRow>, vs: seq<string>): seq<Curve>
  {
    if vs == [] then []
    else
      var c := CurveOf(rows, vs[|vs| - 1]);
      CurvesOf(rows, vs[..|vs| - 1]) + (if c.Some? then [c.value] else [])
  }

  /**
   * The curve's contracts and closes are those of its variety's rows, each
   * row exactly once, in some order.
   */
  ghost predicate DrawnFrom(rows: seq<Curves.PriceRow>, c: Curve)
  {
    exists s :: multiset(s) == multiset(Curves.RowsOfVariety(rows, c.variety)) && c.contracts == Curves.Symbols(s) && c.closes == CloseCells(s)
  }

  /** A curve drawn from its variety's rows has one contract per such row. */
  lemma DrawnSize(rows: seq<Curves.PriceRow>, c: Curve)
    requires DrawnFrom(rows, c)
    ensures |c.contracts| == |c.closes| == |Curves.RowsOfVariety(rows, c.variety)|
  {
    var s :| multiset(s) == multiset(Curves.RowsOfVariety(rows, c.variety)) && c.contracts == Curves.Symbols(s) && c.closes == CloseCells(s);
    assert |Curves.RowsOfVariety(rows, c.variety)| == |multiset(s)| == |s|;
  }

  /** A curve as the report promises it: all of its variety's rows, two or more, in symbol order, classified strictly. */
  ghost predicate WellFormedCurve(rows: seq<Curves.PriceRow>, c: Curve)
  {
    |c.contracts| == |c.closes| >= 2 &&
    (forall i, j :: 0 <= i < j < |c.contracts| ==> Text.StrLe(c.contracts[i], c.contracts[j])) &&
    c.structure == Classify(c.closes) &&
    DrawnFrom(rows, c)
  }

  /**
   * `analyze_term_structure` on one workbook: nothing when a column is
   * missing; otherwise one well-formed curve per variety with two or more
   * contracts, varieties never repeated.
   */
  function TermStructure(t: Curves.PriceTable): (r: seq<Curve>)
    ensures !Curves.HasCurveColumns(t) ==> r == []
    ensures forall c :: c in r ==> WellFormedCurve(t.rows, c)
    ensures forall i, j :: 0 <= i < j < |r| ==> r[i].variety != r[j].variety
  {
    if !Curves.HasCurveColumns(t) then []
    else
      CurvesWellFormed(t.rows, Curves.Varieties(t.rows));
      CurvesOf(t.rows, Curves.Varieties(t.rows))
  }

  lemma CurveOfWellFormed(rows: seq<Curves.PriceRow>, v: string)
    requires CurveOf(rows, v).Some?
    ensures CurveOf(rows, v).value.variety == v
    ensures WellFormedCurve(rows, CurveOf(rows, v).value)
  {
    var mine := Curves.RowsOfVariety(rows, v);
    var sorted := Curves.BySymbol(mine);
    Curves.BySymbolOrdered(mine);
    var c := CurveOf(rows, v).value;
    assert c.contracts == Curves.Symbols(sorted) && c.closes == CloseCells(sorted);
    assert |c.contracts| == |c.closes| >= 2;
    forall i, j | 0 <= i < j < |c.contracts| ensures Text.StrLe(c.contracts[i], c.contracts[j]) {
      assert c.contracts[i] == sorted[i].symbol && c.contracts[j] == sorted[j].symbol;
    }
    assert multiset(sorted) == multiset(Curves.RowsOfVariety(rows, c.variety));
  }

  /** Every variety of `vs` with two or more rows gets its curve. */
  lemma {:induction false} CurvesOfComplete(rows: seq<Curves.PriceRow>, vs: seq<string>, v: string)
    requires v in vs && |Curves.RowsOfVariety(rows, v)| >= 2
    ensures CurveOf(rows, v).Some? && CurveOf(rows, v).value in CurvesOf(rows, vs)
  {
    var init := vs[..|vs| - 1];
    var mine := Curves.RowsOfVariety(rows, v);
    Curves.BySymbolOrdered(mine);
    assert |Curves.BySymbol(mine)| == |multiset(Curves.BySymbol(mine))| == |multiset(mine)| == |mine|;
    if v != vs[|vs| - 1] {
      assert vs == init + [vs[|vs| - 1]];
      CurvesOfComplete(rows, init, v);
    }
  }

  /**
   * The report has a curve for a variety exactly when the workbook has the
   * three columns and the variety has two or more contracts.
   */
  lemma TermStructureComplete(t: Curves.PriceTable, v: string)
    ensures (exists c :: c in TermStructure(t) && c.variety == v) <==>
      Curves.HasCurveColumns(t) && v in Curves.Varieties(t.rows) && |Curves.RowsOfVariety(t.rows, v)| >= 2
  {
    var vs := Curves.Varieties(t.rows);
    if Curves.HasCurveColumns(t) && v in vs && |Curves.RowsOfVariety(t.rows, v)| >= 2 {
      CurvesOfComplete(t.rows, vs, v);
      CurveOfWellFormed(t.rows, v);
    } else if Curves.HasCurveColumns(t) {
      CurvesWellFormed(t.rows, vs);
      forall c | c in TermStructure(t) ensures c.variety != v {
        DrawnSize(t.rows, c);
      }
    }
  }

  /** No two curves of the list are for the same variety. */
  predicate DistinctVarieties(cs: seq<Curve>)
  {
    forall i, j :: 0 <= i < j < |cs| ==> cs[i].variety != cs[j].variety
  }

  lemma DistinctVarietiesSnoc(cs: seq<Curve>, c: Curve)
    requires DistinctVarieties(cs)
    requires forall x :: x in cs ==> x.variety != c.variety
    ensures DistinctVarieties(cs + [c])
  {
    var all := cs + [c];
    forall i, j | 0 <= i < j < |all| ensures all[i].variety != all[j].variety {
      assert all[i] == cs[i];
      if j == |cs| {
        assert cs[i] in cs;
      } else {
        assert all[j] == cs[j];
      }
    }
  }

  lemma {:induction false} CurvesWellFormed(rows: seq<Curves.PriceRow>, vs: seq<string>)
    requires Position.NoDuplicates(vs)
    ensures forall c :: c in CurvesOf(rows, vs) ==> WellFormedCurve(rows, c) && c.variety in vs
    ensures DistinctVarieties(CurvesOf(rows, vs))
  {
    if vs != [] {
      var init := vs[..|vs| - 1];
      var v := vs[|vs| - 1];
      assert vs == init + [v];
      assert Position.NoDuplicates(init);
      CurvesWellFormed(rows, init);
      var prev := CurvesOf(rows, init);
      var c := CurveOf(rows, v);
      if c.Some? {
        CurveOfWellFormed(rows, v);
        assert v !in init;
        DistinctVarietiesSnoc(prev, c.value);
      }
    }
  }

  lemma CurvesOfStep(rows: seq<Curves.PriceRow>, vs: seq<string>, i: nat)
    requires i < |vs|
    ensures CurvesOf(rows, vs[..i + 1]) ==
      CurvesOf(rows, vs[..i]) + (if CurveOf(rows, vs[i]).Some? then [CurveOf(rows, vs[i]).value] else [])
  {
    assert vs[..i + 1][..i] == vs[..i];
  }

  /** The flags of the classification, one pass over the steps. */
  method DetermineStructure(closes: seq<Option<real>>) returns (s: Curves.Structure)
    ensures s == Classify(closes)
  {
    var decreasing := true;
    var increasing := true;
    var i := 0;
    while i + 1 < |closes|
      invariant i == 0 || i < |closes|
      invariant decreasing <==> forall k :: 0 <= k < i ==> Falls(closes[k], closes[k + 1])
      invariant increasing <==> forall k :: 0 <= k < i ==> Rises(closes[k], closes[k + 1])
    {
      if !Falls(closes[i], closes[i + 1]) {
        decreasing := false;
      }
      if !Rises(closes[i], closes[i + 1]) {
        increasing := false;
      }
      i := i + 1;
    }
    if decreasing {
      s := Curves.Back;
    } else if increasing {
      s := Curves.Contango;
    } else {
      s := Curves.Flat;
    }
  }

  /** The body of the variety loop: select, sort by symbol, skip short curves, classify. */
  method BuildCurve(rows: seq<Curves.PriceRow>, v: string) returns (c: Option<Curve>)
    ensures c == CurveOf(rows, v)
  {
    var data := Curves.BySymbol(Curves.RowsOfVariety(rows, v));
    var contracts := Curves.Symbols(data);
    var closes := CloseCells(data);
    if |contracts| < 2 {
      return None;
    }
    var structure := DetermineStructure(closes);
    c := Some(Curve(v, structure, contracts, closes));
  }

  /** `analyze_term_structure`: the column check, then the variety loop. */
  method AnalyzeTermStructure(t: Curves.PriceTable) returns (results: seq<Curve>)
    ensures results == TermStructure(t)
  {
    if !Curves.HasCurveColumns(t) {
      return [];
    }
    results := AnalyzeVarieties(t.rows, Curves.Varieties(t.rows));
  }

  /** The variety loop: one curve per variety with two or more contracts, in order. */
  method AnalyzeVarieties(rows: seq<Curves.PriceRow>, varieties: seq<string>) returns (results: seq<Curve>)
    ensures results == CurvesOf(rows, varieties)
  {
    results := [];
    var i := 0;
    while i < |varieties|
      invariant 0 <= i <= |varieties|
      invariant results == CurvesOf(rows, varieties[..i])
    {
      var curve := BuildCurve(rows, varieties[i]);
      CurvesOfExtend(rows, varieties, i, results, curve);
      if curve.Some? {
        results := results + [curve.value];
      }
      i := i + 1;
    }
    assert varieties[..i] == varieties;
  }

  lemma CurvesOfExtend(rows: seq<Curves.PriceRow>, vs: seq<string>, i: nat, results: seq<Curve>, c: Option<Curve>)
    requires i < |vs| && results == CurvesOf(rows, vs[..i]) && c == CurveOf(rows, vs[i])
    ensures CurvesOf(rows, vs[..i + 1]) == if c.Some? then results + [c.value] else results
  {
    CurvesOfStep(rows, vs, i);
    if c.None? {
      assert results + [] == results;
    }
  }

  /** `all_results.extend(...)` over the workbooks, in order. */
  function AllResults(tables: seq<Curves.PriceTable>): seq<Curve>
  {
    if tables == [] then [] else AllResults(tables[..|tables| - 1]) + TermStructure(tables[|tables| - 1])
  }

  method AnalyzeFiles(tables: seq<Curves.PriceTable>) returns (all: seq<Curve>)
    ensures all == AllResults(tables)
  {
    all := [];
    var i := 0;
    while i < |tables|
      invariant 0 <= i <= |tables|
      invariant all == AllResults(tables[..i])
    {
      assert tables[..i + 1][..i] == tables[..i];
      var results := AnalyzeTermStructure(tables[i]);
      all := all + results;
      i := i + 1;
    }
    assert tables[..i] == tables;
  }

  // ----- the report -----

  /** `[r for r in all_results if r[1] == structure]`. */
  function WithStructure(all: seq<Curve>, s: Curves.Structure): (r: seq<Curve>)
    ensures |r| <= |all|
  {
    if all == [] then []
    else WithStructure(all[..|all| - 1], s) + (if all[|all| - 1].structure == s then [all[|all| - 1]] else [])
  }

  /** A section lists exactly the results with its structure. */
  lemma {:induction false} WithStructureMeaning(all: seq<Curve>, s: Curves.Structure, c: Curve)
    ensures c in WithStructure(all, s) <==> c in all && c.structure == s
  {
    if all != [] {
      WithStructureMeaning(all[..|all| - 1], s, c);
      assert all == all[..|all| - 1] + [all[|all| - 1]];
    }
  }

  lemma WithStructureStep(all: seq<Curve>, s: Curves.Structure)
    requires all != []
    ensures WithStructure(all, s) == WithStructure(all[..|all| - 1], s) + (if all[|all| - 1].structure == s then [all[|all| - 1]] else [])
  {
  }

  /** The three sections of the report, together. */
  function Sections(all: seq<Curve>): multiset<Curve>
  {
    multiset(WithStructure(all, Curves.Back)) + multiset(WithStructure(all, Curves.Contango)) + multiset(WithStructure(all, Curves.Flat))
  }

  /** The three sections of the report split the results: every result appears in exactly one, and the counts add up to the total. */
  lemma {:induction false} ReportPartitions(all: seq<Curve>)
    ensures Sections(all) == multiset(all)
  {
    if all != [] {
      ReportPartitions(all[..|all| - 1]);
      SectionsStep(all);
      MultisetSnoc(all);
    }
  }

  lemma SectionsStep(all: seq<Curve>)
    requires all != []
    ensures Sections(all) == Sections(all[..|all| - 1]) + multiset{all[|all| - 1]}
  {
    WithStructureStep(all, Curves.Back);
    WithStructureStep(all, Curves.Contango);
    WithStructureStep(all, Curves.Flat);
  }

  lemma MultisetSnoc<T>(s: seq<T>)
    requires s != []
    ensures multiset(s) == multiset(s[..|s| - 1]) + multiset{s[|s| - 1]}
  {
    assert s == s[..|s| - 1] + [s[|s| - 1]];
  }

  /** The counts printed at the end of the report add up to the total. */
  lemma ReportCounts(all: seq<Curve>)
    ensures |WithStructure(all, Curves.Back)| + |WithStructure(all, Curves.Contango)| + |WithStructure(all, Curves.Flat)| == |all|
  {
    ReportPartitions(all);
    assert |Sections(all)| == |multiset(all)|;
  }

  /** `term_structure_analysis_{start_date}_{end_date}.txt`. */
  function ReportFileName(startDate: string, endDate: string): (name: string)
    ensures |name| == 24 + |startDate| + 1 + |endDate| + 4
    ensures name[..24] == "term_structure_analysis_"
    ensures name[24..24 + |startDate|] == startDate && name[24 + |startDate|] == '_'
    ensures name[25 + |startDate|..|name| - 4] == endDate && name[|name| - 4..] == ".txt"
  {
    "term_structure_analysis_" + startDate + "_" + endDate + ".txt"
  }
}
