/**
 * Term-structure vocabulary: price rows grouped by variety, the three
 * structure labels, and the strict classification of a price curve.
 */
module Curves {
  import opened Wrappers
  import Text
  import Sorting
  import Position

  /** One contract's row of the price frame: `symbol`, `close` (missing is `None`) and `variety`. */
  datatype PriceRow = PriceRow(symbol: string, close: Option<real>, variety: string)

  /** A price frame: the names of its columns and its rows. */
  datatype PriceTable = PriceTable(columns: set<string>, rows: seq<PriceRow>)

  predicate HasCurveColumns(t: PriceTable)
  {
    "symbol" in t.columns && "close" in t.columns && "variety" in t.columns
  }

  /** "back" (near months dearer), "contango" (far months dearer) and "flat". */
  datatype Structure = Back | Contango | Flat

  /** One variety's analysis: its label, contracts and closes in curve order. */
  datatype CurveResult = CurveResult(variety: string, structure: Structure, contracts: seq<string>, closes: seq<real>)

  /** No two curves of the list are for the same variety. */
  predicate DistinctVarieties(cs: seq<CurveResult>)
  {
    forall i, j :: 0 <= i < j < |cs| ==> cs[i].variety != cs[j].variety
  }

  /** Appending the curve of a variety not yet listed keeps the varieties distinct. */
  lemma DistinctVarietiesSnoc(cs: seq<CurveResult>, c: CurveResult)
    requires DistinctVarieties(cs)
    requires forall x :: x in cs ==> x.variety != c.variety
    ensures DistinctVarieties(cs + [c])
  {
    var all := cs + [c];
    forall i, j | 0 <= i < j < |all| ensures all[i].variety != all[j].variety {
      assert all[i] == cs[i];
      if j == |cs| {
        assert cs[i] in cs;
      } else {
        assert all[j] == cs[j];
      }
    }
  }

  predicate StrictlyDecreasing(p: seq<real>) { forall k :: 0 <= k < |p| - 1 ==> p[k] > p[k + 1] }
  predicate StrictlyIncreasing(p: seq<real>) { forall k :: 0 <= k < |p| - 1 ==> p[k] < p[k + 1] }

  /** The strict rule: back iff every step falls, contango iff every step rises, else flat. */
  function StrictStructure(p: seq<real>): (s: Structure)
    ensures s == Back <==> |p| >= 2 && StrictlyDecreasing(p)
    ensures s == Contango <==> |p| >= 2 && StrictlyIncreasing(p)
    ensures s == Flat <==> |p| < 2 || (!StrictlyDecreasing(p) && !StrictlyIncreasing(p))
  {
    if |p| < 2 then Flat
    else if StrictlyDecreasing(p) then
      assert p[0] > p[1];
      Back
    else if StrictlyIncreasing(p) then Contango
    else Flat
  }

  /** One step that does not fall and one that does not rise make the curve flat. */
  lemma MixedStepsAreFlat(p: seq<real>, i: nat, j: nat)
    requires i + 1 < |p| && j + 1 < |p|
    requires p[i] <= p[i + 1] && p[j] >= p[j + 1]
    ensures StrictStructure(p) == Flat
  {
  }

  /** A curve that falls at every step falls between any two of its points. */
  lemma {:induction false} DecreasingEverywhere(p: seq<real>, i: nat, j: nat)
    requires StrictlyDecreasing(p) && i < j < |p|
    ensures p[i] > p[j]
    decreases j - i
  {
    if j > i + 1 {
      DecreasingEverywhere(p, i + 1, j);
    }
  }

  /** A curve that rises at every step rises between any two of its points. */
  lemma {:induction false} IncreasingEverywhere(p: seq<real>, i: nat, j: nat)
    requires StrictlyIncreasing(p) && i < j < |p|
    ensures p[i] < p[j]
    decreases j - i
  {
    if j > i + 1 {
      IncreasingEverywhere(p, i + 1, j);
    }
  }

  function VarietyOf(r: PriceRow): string { r.variety }
  function SymbolOf(r: PriceRow): string { r.symbol }

  function VarietyColumn(rows: seq<PriceRow>): (vs: seq<string>)
    ensures |vs| == |rows| && forall i :: 0 <= i < |rows| ==> vs[i] == rows[i].variety
  {
    if rows == [] then [] else [rows[0].variety] + VarietyColumn(rows[1..])
  }

  /** `price_data['variety'].unique()`: each variety once, in order of first appearance. */
  function Varieties(rows: seq<PriceRow>): (vs: seq<string>)
    ensures Position.NoDuplicates(vs)
    ensures forall v :: v in vs <==> exists r :: r in rows && r.variety == v
  {
    var col := VarietyColumn(rows);
    assert forall v :: v in col <==> exists r :: r in rows && r.variety == v by {
      forall v ensures v in col <==> exists r :: r in rows && r.variety == v {
        if v in col {
          var i :| 0 <= i < |col| && col[i] == v;
          assert rows[i] in rows;
        }
        if exists r :: r in rows && r.variety == v {
          var r :| r in rows && r.variety == v;
          var i :| 0 <= i < |rows| && rows[i] == r;
          assert col[i] == v;
        }
      }
    }
    Position.Dedup(col)
  }

  /** `price_data[price_data['variety'] == variety]`, order kept. */
  function RowsOfVariety(rows: seq<PriceRow>, v: string): (r: seq<PriceRow>)
    ensures forall x :: x in r <==> x in rows && x.variety == v
    ensures |r| <= |rows|
  {
    if rows == [] then []
    else (if rows[0].variety == v then [rows[0]] else []) + RowsOfVariety(rows[1..], v)
  }

  predicate PositiveClose(r: PriceRow) { r.close.Some? && r.close.value > 0.0 }

  /** `rows[(rows['close'] > 0) & rows['close'].notna()]`, order kept. */
  function WithPositiveClose(rows: seq<PriceRow>): (r: seq<PriceRow>)
    ensures forall x :: x in r <==> x in rows && PositiveClose(x)
    ensures |r| <= |rows|
  {
    if rows == [] then []
    else (if PositiveClose(rows[0]) then [rows[0]] else []) + WithPositiveClose(rows[1..])
  }

  /** A variety's rows with a positive close: what every curve is drawn from. */
  function Priced(rows: seq<PriceRow>, v: string): seq<PriceRow>
  {
    WithPositiveClose(RowsOfVariety(rows, v))
  }

  /** Filtering keeps each priced row as often as the input holds it and drops the others. */
  lemma {:induction false} PricedCount(s: seq<PriceRow>, x: PriceRow)
    ensures multiset(WithPositiveClose(s))[x] == if PositiveClose(x) then multiset(s)[x] else 0
  {
    if s != [] {
      PricedCount(s[1..], x);
      assert s == [s[0]] + s[1..];
    }
  }

  /** Reordering the rows reorders the priced ones the same way. */
  lemma PricedPermutation(a: seq<PriceRow>, b: seq<PriceRow>)
    requires multiset(a) == multiset(b)
    ensures multiset(WithPositiveClose(a)) == multiset(WithPositiveClose(b))
  {
    forall x ensures multiset(WithPositiveClose(a))[x] == multiset(WithPositiveClose(b))[x] {
      PricedCount(a, x);
      PricedCount(b, x);
    }
  }

  function Symbols(rows: seq<PriceRow>): (s: seq<string>)
    ensures |s| == |rows| && forall i :: 0 <= i < |rows| ==> s[i] == rows[i].symbol
  {
    if rows == [] then [] else [rows[0].symbol] + Symbols(rows[1..])
  }

  /** A row's symbol is among the symbols of any list that holds the row. */
  lemma SymbolOfMember(rows: seq<PriceRow>, x: PriceRow)
    requires x in rows
    ensures x.symbol in Symbols(rows)
  {
    var k :| 0 <= k < |rows| && rows[k] == x;
    assert Symbols(rows)[k] == x.symbol;
  }

  /** The close column as numbers; a missing close reads 0. */
  function Closes(rows: seq<PriceRow>): (c: seq<real>)
    ensures |c| == |rows| && forall i :: 0 <= i < |rows| ==> c[i] == rows[i].close.GetOr(0.0)
  {
    if rows == [] then [] else [rows[0].close.GetOr(0.0)] + Closes(rows[1..])
  }

  /**
   * The curve's contracts and closes are those of its variety's priced rows,
   * each row exactly once, in some order.
   */
  ghost predicate DrawnFrom(rows: seq<PriceRow>, c: CurveResult)
  {
    exists s :: multiset(s) == multiset(Priced(rows, c.variety)) && c.contracts == Symbols(s) && c.closes == Closes(s)
  }

  /** A curve drawn from its variety's priced rows has one contract per such row. */
  lemma DrawnSize(rows: seq<PriceRow>, c: CurveResult)
    requires DrawnFrom(rows, c)
    ensures |c.contracts| == |c.closes| == |Priced(rows, c.variety)|
  {
    var s :| multiset(s) == multiset(Priced(rows, c.variety)) && c.contracts == Symbols(s) && c.closes == Closes(s);
    assert |Priced(rows, c.variety)| == |multiset(s)| == |s|;
  }

  // ----- ordering by the symbol string -----

  /** Python's string order on symbols is a total preorder. */
  lemma SymbolOrderTotal()
    ensures Sorting.TotalPreorder(Text.StrLe)
  {
    forall a, b ensures Text.StrLe(a, b) || Text.StrLe(b, a) {
      Text.StrLeTotal(a, b);
    }
    forall a, b, c | Text.StrLe(a, b) && Text.StrLe(b, c) ensures Text.StrLe(a, c) {
      Text.StrLeTrans(a, b, c);
    }
  }

  /** `sort_values('symbol')`. */
  function BySymbol(rows: seq<PriceRow>): seq<PriceRow>
  {
    Sorting.SortBy(rows, SymbolOf, Text.StrLe)
  }

  ghost predicate SymbolOrdered(rows: seq<PriceRow>)
  {
    forall i, j :: 0 <= i < j < |rows| ==> Text.StrLe(rows[i].symbol, rows[j].symbol)
  }

  /** Sorting by symbol keeps the rows and puts their symbols in string order. */
  lemma BySymbolOrdered(rows: seq<PriceRow>)
    ensures multiset(BySymbol(rows)) == multiset(rows)
    ensures SymbolOrdered(BySymbol(rows))
  {
    SymbolOrderTotal();
    Sorting.SortBySorted(rows, SymbolOf, Text.StrLe);
  }

  /** Dropping the rows without a positive close keeps the remaining rows in symbol order. */
  lemma {:induction false} FilterKeepsSymbolOrder(rows: seq<PriceRow>)
    requires SymbolOrdered(rows)
    ensures SymbolOrdered(WithPositiveClose(rows))
  {
    if rows != [] {
      var rest := WithPositiveClose(rows[1..]);
      assert SymbolOrdered(rows[1..]) by {
        forall i, j | 0 <= i < j < |rows[1..]| ensures Text.StrLe(rows[1..][i].symbol, rows[1..][j].symbol) {
          assert rows[1..][i] == rows[i + 1] && rows[1..][j] == rows[j + 1];
        }
      }
      FilterKeepsSymbolOrder(rows[1..]);
      if PositiveClose(rows[0]) {
        var r := [rows[0]] + rest;
        forall i, j | 0 <= i < j < |r| ensures Text.StrLe(r[i].symbol, r[j].symbol) {
          if i == 0 {
            assert r[j] == rest[j - 1];
            assert rest[j - 1] in rows[1..];
            var k :| 0 <= k < |rows[1..]| && rows[1..][k] == rest[j - 1];
            assert rows[k + 1] == rest[j - 1];
          } else {
            assert r[i] == rest[i - 1] && r[j] == rest[j - 1];
          }
        }
      }
    }
  }
}
