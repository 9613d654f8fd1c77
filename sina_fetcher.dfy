/**
 * The Sina position fetcher (`sina_position_fetcher.py`): its conversion of
 * the per-type seat rankings into exchange-workbook sheets. Its main-contract
 * guess and its three-attempt download are the same code as the integrated
 * fetcher's and are modelled there (`IntegratedFetcher.MainContract`,
 * `HoldPos.FetchSingleContract`).
 */
module SinaFetcher {
  import opened Wrappers
  import Text
  import Sorting
  import Position
  import HoldPos
  import IntegratedFetcher

  /** `symbol_data['会员简称']`, in row order. */
  function Members(rs: seq<HoldPos.PosRecord>): (c: seq<string>)
    ensures |c| == |rs| && forall i :: 0 <= i < |rs| ==> c[i] == rs[i].member
  {
    if rs == [] then [] else [rs[0].member] + Members(rs[1..])
  }

  function Ident(s: string): string { s }

  /** `sorted(set(symbol_data['会员简称']))`: every member once, in string order. */
  function Seats(rs: seq<HoldPos.PosRecord>): seq<string>
  {
    Sorting.SortBy(Position.Dedup(Members(rs)), Ident, Text.StrLe)
  }

  /** The seats are exactly the members that have a row, each once, in strictly increasing string order. */
  lemma SeatsMeaning(rs: seq<HoldPos.PosRecord>)
    ensures Sorting.Distinct(Seats(rs))
    ensures forall m :: m in Seats(rs) <==> exists x :: x in rs && x.member == m
    ensures forall i, j :: 0 <= i < j < |Seats(rs)| ==> Text.StrLe(Seats(rs)[i], Seats(rs)[j])
  {
    var d := Position.Dedup(Members(rs));
    var s := Seats(rs);
    assert Sorting.Distinct(d);
    Sorting.SortByDistinct(d, Ident, Text.StrLe);
    assert forall m :: m in s <==> m in multiset(d);
    forall m ensures m in s <==> exists x :: x in rs && x.member == m {
      if m in s {
        assert m in Members(rs);
        var k :| 0 <= k < |rs| && Members(rs)[k] == m;
        assert rs[k] in rs;
      }
      if x :| x in rs && x.member == m {
        var k :| 0 <= k < |rs| && rs[k] == x;
        assert Members(rs)[k] == m;
      }
    }
    StrOrderTotal();
    Sorting.SortBySorted(d, Ident, Text.StrLe);
  }

  lemma StrOrderTotal()
    ensures Sorting.TotalPreorder(Text.StrLe)
  {
    forall a, b ensures Text.StrLe(a, b) || Text.StrLe(b, a) {
      Text.StrLeTotal(a, b);
    }
    forall a, b, c | Text.StrLe(a, b) && Text.StrLe(b, c) ensures Text.StrLe(a, c) {
      Text.StrLeTrans(a, b, c);
    }
  }

  /**
   * The row of one seat: its rank in the sheet, then for each position type
   * the figures of the seat's first row of that type (`iloc[0]`), 0 without one.
   */
  function SeatRow(mine: seq<HoldPos.PosRecord>, seat: string, rank: int): (r: HoldPos.ExchangeRow)
    ensures r.rank == rank && r.member == seat
  {
    var volume := HoldPos.FirstOf(HoldPos.OfKind(mine, HoldPos.Volume), seat);
    var long := HoldPos.FirstOf(HoldPos.OfKind(mine, HoldPos.LongHolding), seat);
    var short := HoldPos.FirstOf(HoldPos.OfKind(mine, HoldPos.ShortHolding), seat);
    HoldPos.ExchangeRow(rank, seat, HoldPos.AmountOr0(volume), HoldPos.AmountOr0(long), HoldPos.ChangeOr0(long),
      HoldPos.AmountOr0(short), HoldPos.ChangeOr0(short))
  }

  /** A figure is the seat's first row of that type, or 0 when the seat has no row of that type. */
  lemma SeatRowFigures(mine: seq<HoldPos.PosRecord>, seat: string, rank: int, kind: HoldPos.PosType)
    ensures var r := SeatRow(mine, seat, rank);
      var first := HoldPos.FirstOf(HoldPos.OfKind(mine, kind), seat);
      var amount := if kind == HoldPos.Volume then r.volume else if kind == HoldPos.LongHolding then r.longPos else r.shortPos;
      (first.None? <==> forall x :: x in mine && x.kind == kind ==> x.member != seat) &&
      (first.None? ==> (amount == 0 && (kind == HoldPos.LongHolding ==> r.longChg == 0) &&
        (kind == HoldPos.ShortHolding ==> r.shortChg == 0))) &&
      (first.Some? ==> (first.value in mine && first.value.kind == kind && first.value.member == seat &&
        amount == first.value.amount &&
        (kind == HoldPos.LongHolding ==> r.longChg == first.value.change) &&
        (kind == HoldPos.ShortHolding ==> r.shortChg == first.value.change)))
  {
  }

  /** `for i, seat in enumerate(seats, 1)`: one row per seat, ranked 1, 2, ... */
  function SeatRows(mine: seq<HoldPos.PosRecord>, seats: seq<string>): (r: seq<HoldPos.ExchangeRow>)
    ensures |r| == |seats|
    ensures forall i :: 0 <= i < |seats| ==> r[i] == SeatRow(mine, seats[i], i + 1)
  {
    if seats == [] then []
    else
      var init := seats[..|seats| - 1];
      assert forall i :: 0 <= i < |init| ==> init[i] == seats[i];
      SeatRows(mine, init) + [SeatRow(mine, seats[|seats| - 1], |seats|)]
  }

  /** `convert_to_exchange_format` for one variety: the first twenty seats in string order, under `name(code)`. */
  function SymbolSheet(rs: seq<HoldPos.PosRecord>, names: map<string, string>, symbol: string): (r: Option<HoldPos.ExchangeSheet>)
    ensures r.Some? ==> r.value.name == HoldPos.SheetName(names, symbol) && 0 < |r.value.rows| <= HoldPos.MaxSeats
  {
    var mine := HoldPos.OfSymbol(rs, symbol);
    var rows := SeatRows(mine, Sorting.Take(Seats(mine), HoldPos.MaxSeats));
    if rows == [] then None else Some(HoldPos.ExchangeSheet(HoldPos.SheetName(names, symbol), rows))
  }

  /**
   * A variety with rows gets a sheet; its rows are ranked 1..k, k being the
   * number of distinct members capped at twenty; the members are distinct, in
   * string order, and no member left out comes before one kept.
   */
  lemma SymbolSheetMeaning(rs: seq<HoldPos.PosRecord>, names: map<string, string>, symbol: string)
    requires symbol in HoldPos.SymbolColumn(rs)
    ensures SymbolSheet(rs, names, symbol).Some?
    ensures var mine := HoldPos.OfSymbol(rs, symbol);
      var seats := Seats(mine);
      var rows := SymbolSheet(rs, names, symbol).value.rows;
      |rows| == (if |seats| < HoldPos.MaxSeats then |seats| else HoldPos.MaxSeats) &&
      (forall i :: 0 <= i < |rows| ==> rows[i] == SeatRow(mine, seats[i], i + 1)) &&
      (forall i, j :: 0 <= i < j < |rows| ==> (rows[i].member != rows[j].member &&
        Text.StrLe(rows[i].member, rows[j].member))) &&
      (forall i, k :: 0 <= i < |rows| <= k < |seats| ==> Text.StrLe(rows[i].member, seats[k]))
  {
    var k :| 0 <= k < |rs| && HoldPos.SymbolColumn(rs)[k] == symbol;
    var mine := HoldPos.OfSymbol(rs, symbol);
    assert rs[k] in rs;
    assert rs[k] in mine;
    SeatsMeaning(mine);
    var seats := Seats(mine);
    assert rs[k].member in seats;
    RowsOfOrderedSeats(mine, seats);
  }

  /** The rows of the first twenty of distinct, string-ordered seats are ranked 1.. and keep the seats' order. */
  lemma RowsOfOrderedSeats(mine: seq<HoldPos.PosRecord>, seats: seq<string>)
    requires Sorting.Distinct(seats)
    requires forall i, j :: 0 <= i < j < |seats| ==> Text.StrLe(seats[i], seats[j])
    ensures var rows := SeatRows(mine, Sorting.Take(seats, HoldPos.MaxSeats));
      |rows| == (if |seats| < HoldPos.MaxSeats then |seats| else HoldPos.MaxSeats) &&
      (forall i :: 0 <= i < |rows| ==> rows[i] == SeatRow(mine, seats[i], i + 1)) &&
      (forall i, j :: 0 <= i < j < |rows| ==> (rows[i].member != rows[j].member &&
        Text.StrLe(rows[i].member, rows[j].member))) &&
      (forall i, k :: 0 <= i < |rows| <= k < |seats| ==> Text.StrLe(rows[i].member, seats[k]))
  {
    var taken := Sorting.Take(seats, HoldPos.MaxSeats);
    assert forall i :: 0 <= i < |taken| ==> taken[i] == seats[i];
    var rows := SeatRows(mine, taken);
    forall i, j | 0 <= i < j < |rows|
      ensures rows[i].member != rows[j].member && Text.StrLe(rows[i].member, rows[j].member)
    {
      assert rows[i].member == seats[i] && rows[j].member == seats[j];
    }
    forall i, k | 0 <= i < |rows| <= k < |seats| ensures Text.StrLe(rows[i].member, seats[k]) {
      assert rows[i].member == seats[i];
    }
  }

  /** One optional sheet per variety. */
  function SymbolSheets(rs: seq<HoldPos.PosRecord>, names: map<string, string>, symbols: seq<string>)
    : (r: seq<Option<HoldPos.ExchangeSheet>>)
    ensures |r| == |symbols| && forall i :: 0 <= i < |symbols| ==> r[i] == SymbolSheet(rs, names, symbols[i])
  {
    seq(|symbols|, i requires 0 <= i < |symbols| => SymbolSheet(rs, names, symbols[i]))
  }

  /** `convert_to_exchange_format`: no frames give no sheets; otherwise a sheet per variety already seen. */
  function Convert(frames: seq<seq<HoldPos.PosRecord>>, names: map<string, string>): (r: seq<HoldPos.ExchangeSheet>)
    ensures frames == [] ==> r == []
    ensures frames != [] ==> |r| <= |HoldPos.SymbolsOf(HoldPos.Concat(frames))|
  {
    if frames == [] then []
    else
      var all := HoldPos.Concat(frames);
      IntegratedFetcher.Present(SymbolSheets(all, names, HoldPos.SymbolsOf(all)))
  }

  /** Exactly one sheet per variety of the frames, in order of first appearance, named `name(code)`. */
  lemma ConvertMeaning(frames: seq<seq<HoldPos.PosRecord>>, names: map<string, string>)
    requires frames != []
    ensures var all := HoldPos.Concat(frames);
      var symbols := HoldPos.SymbolsOf(all);
      |Convert(frames, names)| == |symbols| &&
      forall i :: 0 <= i < |symbols| ==>
        SymbolSheet(all, names, symbols[i]) == Some(Convert(frames, names)[i]) &&
        Convert(frames, names)[i].name == HoldPos.SheetName(names, symbols[i])
  {
    var all := HoldPos.Concat(frames);
    var symbols := HoldPos.SymbolsOf(all);
    var opts := SymbolSheets(all, names, symbols);
    forall i | 0 <= i < |symbols| ensures opts[i].Some? {
      assert symbols[i] in symbols;
      SymbolSheetMeaning(all, names, symbols[i]);
    }
    IntegratedFetcher.PresentAll(opts);
    assert Convert(frames, names) == IntegratedFetcher.Present(opts);
  }

  /** The seat loop: `pivot_data.append(seat_data)` for the first twenty seats. */
  method BuildSeatRows(mine: seq<HoldPos.PosRecord>, seats: seq<string>) returns (pivot: seq<HoldPos.ExchangeRow>)
    ensures pivot == SeatRows(mine, Sorting.Take(seats, HoldPos.MaxSeats))
  {
    var top := Sorting.Take(seats, HoldPos.MaxSeats);
    pivot := [];
    var i := 0;
    while i < |top|
      invariant 0 <= i <= |top|
      invariant pivot == SeatRows(mine, top[..i])
    {
      assert top[..i + 1][..i] == top[..i];
      pivot := pivot + [SeatRow(mine, top[i], i + 1)];
      i := i + 1;
    }
    assert top[..i] == top;
  }

  /** The body of the variety loop: the seat rows, kept as a sheet when there are any. */
  method BuildSheet(combined: seq<HoldPos.PosRecord>, names: map<string, string>, symbol: string)
    returns (sheet: Option<HoldPos.ExchangeSheet>)
    ensures sheet == SymbolSheet(combined, names, symbol)
  {
    var mine := HoldPos.OfSymbol(combined, symbol);
    var pivot := BuildSeatRows(mine, Seats(mine));
    if pivot != [] {
      sheet := Some(HoldPos.ExchangeSheet(HoldPos.SheetName(names, symbol), pivot));
    } else {
      sheet := None;
    }
  }

  /** `convert_to_exchange_format`. */
  method ConvertToExchangeFormat(frames: seq<seq<HoldPos.PosRecord>>, names: map<string, string>)
    returns (result: seq<HoldPos.ExchangeSheet>)
    ensures result == Convert(frames, names)
  {
    if frames == [] {
      return [];
    }
    var combined := HoldPos.Concat(frames);
    result := CollectSheets(combined, names, HoldPos.SymbolsOf(combined));
  }

  /** The variety loop of `convert_to_exchange_format`. */
  method CollectSheets(combined: seq<HoldPos.PosRecord>, names: map<string, string>, symbols: seq<string>)
    returns (result: seq<HoldPos.ExchangeSheet>)
    ensures result == IntegratedFetcher.Present(SymbolSheets(combined, names, symbols))
  {
    ghost var opts := SymbolSheets(combined, names, symbols);
    result := [];
    var i := 0;
    while i < |symbols|
      invariant 0 <= i <= |symbols|
      invariant result == IntegratedFetcher.Present(opts[..i])
    {
      var sheet := BuildSheet(combined, names, symbols[i]);
      IntegratedFetcher.PresentStep(opts, i, result, sheet);
      if sheet.Some? {
        result := result + [sheet.value];
      }
      i := i + 1;
    }
    assert opts[..i] == opts;
  }
}
