/**
 * The seat-ranking table every strategy reads: one row per rank, holding the
 * long-side party, open interest and change, the short-side party, open
 * interest and change, and the volume figure. A workbook sheet arrives as text
 * cells; the normalisers rename the Zhengzhou exchange's raw column names,
 * check the required columns and parse the numeric ones.
 */
module Position {
  import opened Wrappers
  import Text

  /** One column of a sheet; every cell is its text (`astype(str)`), a missing cell reads "nan". */
  datatype Column = Column(name: string, cells: seq<string>)

  /** A sheet: its columns in order and its number of rows. */
  datatype RawTable = RawTable(columns: seq<Column>, height: nat)

  predicate HasColumn(t: RawTable, name: string)
  {
    exists c :: c in t.columns && c.name == name
  }

  /** The cells of the first column called `name`, or none. */
  function CellsOf(cols: seq<Column>, name: string): seq<string>
  {
    if cols == [] then [] else if cols[0].name == name then cols[0].cells else CellsOf(cols[1..], name)
  }

  /** Cell `i` of column `name`; a short column reads "nan" past its end. */
  function Cell(t: RawTable, name: string, i: nat): string
  {
    var cs := CellsOf(t.columns, name);
    if i < |cs| then cs[i] else "nan"
  }

  /** `DataFrame.rename(columns=renames)`. */
  function Rename(t: RawTable, renames: map<string, string>): (r: RawTable)
    ensures r.height == t.height && |r.columns| == |t.columns|
    ensures forall i :: 0 <= i < |t.columns| ==>
      r.columns[i].cells == t.columns[i].cells &&
      r.columns[i].name == (if t.columns[i].name in renames then renames[t.columns[i].name] else t.columns[i].name)
  {
    RawTable(RenameColumns(t.columns, renames), t.height)
  }

  function RenameColumns(cols: seq<Column>, renames: map<string, string>): (r: seq<Column>)
    ensures |r| == |cols|
    ensures forall i :: 0 <= i < |cols| ==>
      r[i].cells == cols[i].cells &&
      r[i].name == (if cols[i].name in renames then renames[cols[i].name] else cols[i].name)
  {
    if cols == [] then []
    else
      var c := cols[0];
      [Column(if c.name in renames then renames[c.name] else c.name, c.cells)] + RenameColumns(cols[1..], renames)
  }

  /** The Zhengzhou exchange's raw column names and the canonical names they receive. */
  const ZceRenames: map<string, string> := map[
    "g_party_n" := "long_party_name",
    "open_inten" := "long_open_interest",
    "inten_intert" := "long_open_interest_chg",
    "t_party_n" := "short_party_name",
    "open_inten.1" := "short_open_interest",
    "inten_intert.1" := "short_open_interest_chg",
    "vol" := "vol"]

  const RequiredColumns: seq<string> := [
    "long_party_name", "long_open_interest", "long_open_interest_chg",
    "short_party_name", "short_open_interest", "short_open_interest_chg", "vol"]

  predicate HasRequiredColumns(t: RawTable)
  {
    forall c :: c in RequiredColumns ==> HasColumn(t, c)
  }

  /** `.str.replace(',', '').str.replace(' ', '')`. */
  function StripSeparators(s: string): (r: string)
    ensures ',' !in r && ' ' !in r
  {
    Text.RemoveChar(Text.RemoveChar(s, ','), ' ')
  }

  /** Cleaning goes character by character: a comma or a space is dropped, every other character kept in order. */
  lemma StripSeparatorsSnoc(s: string, x: char)
    ensures StripSeparators([]) == []
    ensures StripSeparators(s + [x]) == StripSeparators(s) + (if x == ',' || x == ' ' then [] else [x])
  {
    Text.RemoveCharAppend(s, [x], ',');
    Text.RemoveCharSingle(x, ',');
    var once := Text.RemoveChar(s, ',');
    Text.RemoveCharAppend(once, Text.RemoveChar([x], ','), ' ');
    Text.RemoveCharSingle(x, ' ');
  }

  /** A non-negative integer written as digits, optionally followed by "." and zeros. */
  function Unsigned(s: string): (r: Option<nat>)
    ensures Text.AllDigits(s) && s != [] ==> r == Some(Text.DigitsValue(s))
  {
    if s == [] then None
    else if Text.AllDigits(s) then Some(Text.DigitsValue(s))
    else if '.' in s then
      var k := FirstIndex(s, '.');
      if 0 < k && Text.AllDigits(s[..k]) && forall j :: k < j < |s| ==> s[j] == '0'
      then Some(Text.DigitsValue(s[..k])) else None
    else None
  }

  function FirstIndex(s: string, c: char): (k: nat)
    requires c in s
    ensures k < |s| && s[k] == c && c !in s[..k]
  {
    if s[0] == c then 0 else 1 + FirstIndex(s[1..], c)
  }

  /** `pd.to_numeric(s, errors='coerce')` on integer-valued text; anything else is missing. */
  function ToNumber(s: string): Option<int>
  {
    if s != [] && (s[0] == '-' || s[0] == '+') then
      match Unsigned(s[1..])
      case None => None
      case Some(v) => var n: int := v; Some(if s[0] == '-' then -n else n)
    else
      match Unsigned(s)
      case None => None
      case Some(v) => Some(v)
  }

  /** How a numeric cell is read: separators removed, "nan" missing, then `to_numeric`. */
  function ParseLots(cell: string): Option<int>
  {
    var s := StripSeparators(cell);
    if s == "nan" then None else ToNumber(s)
  }

  /** `str(v)` for an integer. */
  function IntToString(v: int): string
  {
    if v < 0 then "-" + Text.NatToString(-v) else Text.NatToString(v)
  }

  /** Reading back a written integer gives it again, so no count is lost on the way. */
  lemma ParseLotsOfIntToString(v: int)
    ensures ParseLots(IntToString(v)) == Some(v)
  {
    var n: nat := if v < 0 then -v else v;
    var d := Text.NatToString(n);
    Text.DigitsValueOfNatToString(n);
    var s := IntToString(v);
    NoSeparatorsInDigits(v);
    assert StripSeparators(s) == s;
    assert s != "nan" by {
      assert s[0] == '-' || Text.IsAsciiDigit(s[0]);
    }
    if v < 0 {
      assert s[1..] == d;
    } else {
      assert s[0] != '-' && s[0] != '+';
    }
  }

  lemma NoSeparatorsInDigits(v: int)
    ensures ',' !in IntToString(v) && ' ' !in IntToString(v)
  {
    var n: nat := if v < 0 then -v else v;
    var d := Text.NatToString(n);
    assert forall i :: 0 <= i < |d| ==> d[i] != ',' && d[i] != ' ';
    if v < 0 {
      assert IntToString(v) == "-" + d;
      assert forall i :: 0 <= i < |IntToString(v)| ==> IntToString(v)[i] == '-' || IntToString(v)[i] == d[i - 1];
    }
  }

  /** One rank of the table after normalisation; a missing or unparsable number is `None`. */
  datatype SeatRow = SeatRow(
    longParty: string, longOI: Option<int>, longChg: Option<int>,
    shortParty: string, shortOI: Option<int>, shortChg: Option<int>,
    vol: Option<int>)

  function RowAt(t: RawTable, i: nat): SeatRow
  {
    SeatRow(
      Cell(t, "long_party_name", i),
      ParseLots(Cell(t, "long_open_interest", i)),
      ParseLots(Cell(t, "long_open_interest_chg", i)),
      Cell(t, "short_party_name", i),
      ParseLots(Cell(t, "short_open_interest", i)),
      ParseLots(Cell(t, "short_open_interest_chg", i)),
      ParseLots(Cell(t, "vol", i)))
  }

  /** The first `n` rows of a table, parsed. */
  function ParseRows(t: RawTable, n: nat): (rows: seq<SeatRow>)
    ensures |rows| == n
    ensures forall i :: 0 <= i < n ==> rows[i] == RowAt(t, i)
  {
    seq(n, i requires 0 <= i < n => RowAt(t, i))
  }

  function LongParty(r: SeatRow): string { r.longParty }
  function ShortParty(r: SeatRow): string { r.shortParty }
  function LongOI(r: SeatRow): Option<int> { r.longOI }
  function ShortOI(r: SeatRow): Option<int> { r.shortOI }
  function LongChg(r: SeatRow): Option<int> { r.longChg }
  function ShortChg(r: SeatRow): Option<int> { r.shortChg }

  /** `x if pd.notna(x) else 0`. */
  function Lots(v: Option<int>): int { v.GetOr(0) }

  /** `Series.sum()`: missing values are skipped, an empty sum is 0. */
  function Total(rows: seq<SeatRow>, f: SeatRow -> Option<int>): int
  {
    if rows == [] then 0 else Total(rows[..|rows| - 1], f) + Lots(f(rows[|rows| - 1]))
  }

  lemma {:induction false} TotalAppend(a: seq<SeatRow>, b: seq<SeatRow>, f: SeatRow -> Option<int>)
    ensures Total(a + b, f) == Total(a, f) + Total(b, f)
    decreases |b|
  {
    if b != [] {
      assert (a + b)[..|a + b| - 1] == a + b[..|b| - 1];
      assert (a + b)[|a + b| - 1] == b[|b| - 1];
      TotalAppend(a, b[..|b| - 1], f);
    } else {
      assert a + b == a;
    }
  }

  lemma {:induction false} TotalNonNegative(rows: seq<SeatRow>, f: SeatRow -> Option<int>)
    requires forall r :: r in rows ==> Lots(f(r)) >= 0
    ensures Total(rows, f) >= 0
  {
    if rows != [] {
      TotalNonNegative(rows[..|rows| - 1], f);
    }
  }

  /** What one seat accumulates on one side: `f` over rows whose `party` is `seat`. */
  function SeatTotal(rows: seq<SeatRow>, seat: string, party: SeatRow -> string, f: SeatRow -> Option<int>): int
  {
    if rows == [] then 0
    else SeatTotal(rows[..|rows| - 1], seat, party, f) + (if party(rows[|rows| - 1]) == seat then Lots(f(rows[|rows| - 1])) else 0)
  }

  /** The seat figures summed over a list of seats. */
  function SeatsTotal(rows: seq<SeatRow>, seats: seq<string>, party: SeatRow -> string, f: SeatRow -> Option<int>): int
  {
    if seats == [] then 0 else SeatTotal(rows, seats[0], party, f) + SeatsTotal(rows, seats[1..], party, f)
  }

  predicate NoDuplicates(s: seq<string>)
  {
    forall i, j :: 0 <= i < j < |s| ==> s[i] != s[j]
  }

  lemma {:induction false} SeatsTotalStep(rows: seq<SeatRow>, r: SeatRow, seats: seq<string>, party: SeatRow -> string, f: SeatRow -> Option<int>)
    requires NoDuplicates(seats)
    ensures SeatsTotal(rows + [r], seats, party, f)
         == SeatsTotal(rows, seats, party, f) + (if party(r) in seats then Lots(f(r)) else 0)
  {
    if seats != [] {
      assert (rows + [r])[..|rows + [r]| - 1] == rows;
      assert NoDuplicates(seats[1..]) by {
        forall i, j | 0 <= i < j < |seats[1..]| ensures seats[1..][i] != seats[1..][j] {
          assert seats[1..][i] == seats[i + 1] && seats[1..][j] == seats[j + 1];
        }
      }
      SeatsTotalStep(rows, r, seats[1..], party, f);
      assert party(r) in seats <==> party(r) == seats[0] || party(r) in seats[1..] by {
        assert seats == [seats[0]] + seats[1..];
      }
      if party(r) == seats[0] {
        assert party(r) !in seats[1..] by {
          forall j | 0 <= j < |seats[1..]| ensures seats[1..][j] != party(r) {
            assert seats[1..][j] == seats[j + 1];
          }
        }
      }
    }
  }

  /**
   * With non-negative figures, what a list of distinct seats holds lies
   * between 0 and the table total: each row counts for at most one seat.
   */
  lemma {:induction false} SeatsTotalBound(rows: seq<SeatRow>, seats: seq<string>, party: SeatRow -> string, f: SeatRow -> Option<int>)
    requires NoDuplicates(seats)
    requires forall r :: r in rows ==> Lots(f(r)) >= 0
    ensures 0 <= SeatsTotal(rows, seats, party, f) <= Total(rows, f)
  {
    if rows == [] {
      SeatsTotalEmpty(seats, party, f);
    } else {
      var init := rows[..|rows| - 1];
      var last := rows[|rows| - 1];
      assert rows == init + [last];
      assert forall r :: r in init ==> r in rows;
      SeatsTotalBound(init, seats, party, f);
      SeatsTotalStep(init, last, seats, party, f);
    }
  }

  lemma {:induction false} SeatsTotalEmpty(seats: seq<string>, party: SeatRow -> string, f: SeatRow -> Option<int>)
    ensures SeatsTotal([], seats, party, f) == 0
  {
    if seats != [] {
      SeatsTotalEmpty(seats[1..], party, f);
    }
  }

  /**
   * `{name: ... for name in seats}` keeps each name once, at its first place;
   * iterating that dict visits the seats in this order.
   */
  function Dedup(s: seq<string>): (r: seq<string>)
    ensures NoDuplicates(r)
    ensures forall x :: x in r <==> x in s
  {
    DedupFrom(s, [])
  }

  function DedupFrom(s: seq<string>, seen: seq<string>): (r: seq<string>)
    requires NoDuplicates(seen)
    ensures NoDuplicates(r)
    ensures forall x :: x in r <==> x in s || x in seen
    ensures seen <= r
  {
    if s == [] then seen
    else if s[0] in seen then DedupFrom(s[1..], seen)
    else DedupFrom(s[1..], seen + [s[0]])
  }

  /** A normalised table with its four totals (`total_long`, `total_short`, `total_long_chg`, `total_short_chg`). */
  datatype PositionSummary = PositionSummary(
    rows: seq<SeatRow>, totalLong: int, totalShort: int, totalLongChg: int, totalShortChg: int)

  /** The retail seats the strategies watch unless configured otherwise. */
  const DefaultRetailSeats: seq<string> := ["东方财富", "平安期货", "徽商期货"]

  /** `f` summed over the rows whose `party` is any of `seats`. */
  function InSeatsTotal(rows: seq<SeatRow>, seats: seq<string>, party: SeatRow -> string, f: SeatRow -> Option<int>): int
  {
    if rows == [] then 0
    else InSeatsTotal(rows[..|rows| - 1], seats, party, f) + (if party(rows[|rows| - 1]) in seats then Lots(f(rows[|rows| - 1])) else 0)
  }

  /** With non-negative figures, the watched seats hold between 0 and the table total. */
  lemma {:induction false} InSeatsTotalBound(rows: seq<SeatRow>, seats: seq<string>, party: SeatRow -> string, f: SeatRow -> Option<int>)
    requires forall r :: r in rows ==> Lots(f(r)) >= 0
    ensures 0 <= InSeatsTotal(rows, seats, party, f) <= Total(rows, f)
  {
    if rows != [] {
      assert forall r :: r in rows[..|rows| - 1] ==> r in rows;
      InSeatsTotalBound(rows[..|rows| - 1], seats, party, f);
    }
  }

  /** Summing per distinct seat and summing per row agree. */
  lemma {:induction false} SeatsTotalIsInSeatsTotal(rows: seq<SeatRow>, seats: seq<string>, party: SeatRow -> string, f: SeatRow -> Option<int>)
    requires NoDuplicates(seats)
    ensures SeatsTotal(rows, seats, party, f) == InSeatsTotal(rows, seats, party, f)
  {
    if rows == [] {
      SeatsTotalEmpty(seats, party, f);
    } else {
      var init := rows[..|rows| - 1];
      assert rows == init + [rows[|rows| - 1]];
      SeatsTotalIsInSeatsTotal(init, seats, party, f);
      SeatsTotalStep(init, rows[|rows| - 1], seats, party, f);
    }
  }

  /** What one watched seat accumulated: both changes and both holdings. */
  datatype SeatStats = SeatStats(name: string, longChg: int, shortChg: int, longPos: int, shortPos: int)

  function StatsOf(rows: seq<SeatRow>, seat: string): SeatStats
  {
    SeatStats(seat,
      SeatTotal(rows, seat, LongParty, LongChg), SeatTotal(rows, seat, ShortParty, ShortChg),
      SeatTotal(rows, seat, LongParty, LongOI), SeatTotal(rows, seat, ShortParty, ShortOI))
  }

  lemma StatsOfStep(rows: seq<SeatRow>, i: nat, seat: string)
    requires i < |rows|
    ensures rows[..i + 1][..i] == rows[..i] && rows[..i + 1][i] == rows[i]
    ensures StatsOf(rows[..i + 1], seat).longChg == StatsOf(rows[..i], seat).longChg + (if rows[i].longParty == seat then Lots(rows[i].longChg) else 0)
    ensures StatsOf(rows[..i + 1], seat).longPos == StatsOf(rows[..i], seat).longPos + (if rows[i].longParty == seat then Lots(rows[i].longOI) else 0)
    ensures StatsOf(rows[..i + 1], seat).shortChg == StatsOf(rows[..i], seat).shortChg + (if rows[i].shortParty == seat then Lots(rows[i].shortChg) else 0)
    ensures StatsOf(rows[..i + 1], seat).shortPos == StatsOf(rows[..i], seat).shortPos + (if rows[i].shortParty == seat then Lots(rows[i].shortOI) else 0)
  {
    assert rows[..i + 1][..i] == rows[..i];
  }

  /**
   * The row loop over `seat_stats`: each row adds its long-side change and
   * holding to its long party's entry and its short-side figures to its short
   * party's entry, when that party is watched; a missing number adds 0.
   */
  method AccumulateSeatStats(rows: seq<SeatRow>, seats: seq<string>) returns (stats: map<string, SeatStats>)
    ensures forall s :: s in stats <==> s in seats
    ensures forall s :: s in stats ==> stats[s] == StatsOf(rows, s)
  {
    stats := map s | s in seats :: SeatStats(s, 0, 0, 0, 0);
    var i := 0;
    while i < |rows|
      invariant 0 <= i <= |rows|
      invariant forall s :: s in stats <==> s in seats
      invariant forall s :: s in stats ==> stats[s] == StatsOf(rows[..i], s)
    {
      var r := rows[i];
      if r.longParty in seats {
        var st := stats[r.longParty];
        stats := stats[r.longParty := st.(longChg := st.longChg + Lots(r.longChg), longPos := st.longPos + Lots(r.longOI))];
      }
      if r.shortParty in seats {
        var st := stats[r.shortParty];
        stats := stats[r.shortParty := st.(shortChg := st.shortChg + Lots(r.shortChg), shortPos := st.shortPos + Lots(r.shortOI))];
      }
      forall s | s in stats ensures stats[s] == StatsOf(rows[..i + 1], s) {
        StatsOfStep(rows, i, s);
      }
      i := i + 1;
    }
    assert rows[..i] == rows;
  }

  /** What one watched seat accumulated when only changes are tracked. */
  datatype SeatChange = SeatChange(name: string, longChg: int, shortChg: int)

  function ChangeOf(rows: seq<SeatRow>, seat: string): SeatChange
  {
    SeatChange(seat, SeatTotal(rows, seat, LongParty, LongChg), SeatTotal(rows, seat, ShortParty, ShortChg))
  }

  /** The row loop that tracks only the two changes per watched seat. */
  method AccumulateSeatChanges(rows: seq<SeatRow>, seats: seq<string>) returns (stats: map<string, SeatChange>)
    ensures forall s :: s in stats <==> s in seats
    ensures forall s :: s in stats ==> stats[s] == ChangeOf(rows, s)
  {
    stats := map s | s in seats :: SeatChange(s, 0, 0);
    var i := 0;
    while i < |rows|
      invariant 0 <= i <= |rows|
      invariant forall s :: s in stats <==> s in seats
      invariant forall s :: s in stats ==> stats[s] == ChangeOf(rows[..i], s)
    {
      var r := rows[i];
      if r.longParty in seats {
        var st := stats[r.longParty];
        stats := stats[r.longParty := st.(longChg := st.longChg + Lots(r.longChg))];
      }
      if r.shortParty in seats {
        var st := stats[r.shortParty];
        stats := stats[r.shortParty := st.(shortChg := st.shortChg + Lots(r.shortChg))];
      }
      forall s | s in stats ensures stats[s] == ChangeOf(rows[..i + 1], s) {
        StatsOfStep(rows, i, s);
      }
      i := i + 1;
    }
    assert rows[..i] == rows;
  }

  /**
   * The second row loop: open interest of rows whose long party is watched,
   * and of rows whose short party is watched.
   */
  method SumRetailHoldings(rows: seq<SeatRow>, seats: seq<string>) returns (longPos: int, shortPos: int)
    ensures longPos == InSeatsTotal(rows, seats, LongParty, LongOI)
    ensures shortPos == InSeatsTotal(rows, seats, ShortParty, ShortOI)
  {
    longPos, shortPos := 0, 0;
    var i := 0;
    while i < |rows|
      invariant 0 <= i <= |rows|
      invariant longPos == InSeatsTotal(rows[..i], seats, LongParty, LongOI)
      invariant shortPos == InSeatsTotal(rows[..i], seats, ShortParty, ShortOI)
    {
      assert rows[..i + 1][..i] == rows[..i];
      if rows[i].longParty in seats {
        longPos := longPos + Lots(rows[i].longOI);
      }
      if rows[i].shortParty in seats {
        shortPos := shortPos + Lots(rows[i].shortOI);
      }
      i := i + 1;
    }
    assert rows[..i] == rows;
  }
}
