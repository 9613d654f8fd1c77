/**
 * `futures_analyzer.py`: the table normalisation of `StrategyAnalyzer`, its
 * three strategies (power change, spider web, every-seat retail reverse),
 * the strict term-structure analyser, the summary and resonance of the
 * analysis engine, and the success counting of the position download.
 */
module FuturesAnalyzer {
  import opened Wrappers
  import Text
  import Sorting
  import Position
  import Signals
  import Curves
  import Sheets
  import Calendar
  import Utils

  // ----- normalisation -----

  /** `_standardize_columns`: the Zhengzhou names are mapped only when `g_party_n` is present. */
  function StandardizeColumns(t: Position.RawTable): (r: Position.RawTable)
    ensures !Position.HasColumn(t, "g_party_n") ==> r == t
    ensures !Position.HasColumn(r, "g_party_n")
    ensures r.height == t.height
  {
    if Position.HasColumn(t, "g_party_n") then
      var r := Position.Rename(t, Position.ZceRenames);
      ZceRenamesTargets();
      assert !Position.HasColumn(r, "g_party_n") by {
        forall c | c in r.columns ensures c.name != "g_party_n" {
          var i :| 0 <= i < |r.columns| && r.columns[i] == c;
          if t.columns[i].name in Position.ZceRenames {
            assert c.name in Position.ZceRenames.Values;
          }
        }
      }
      r
    else t
  }

  /** No Zhengzhou name is mapped to `g_party_n`, so the mapping cannot reintroduce it. */
  lemma ZceRenamesTargets()
    ensures "g_party_n" !in Position.ZceRenames.Values
  {
    forall v | v in Position.ZceRenames.Values ensures |v| != 9 {
      var k :| k in Position.ZceRenames && Position.ZceRenames[k] == v;
    }
  }

  /** Normalising a normalised table changes nothing. */
  lemma StandardizeColumnsIdempotent(t: Position.RawTable)
    ensures StandardizeColumns(StandardizeColumns(t)) == StandardizeColumns(t)
  {
  }

  /**
   * `process_position_data`: `None` unless all seven columns exist after
   * normalisation; otherwise every row parsed and the four totals over all rows.
   */
  function ProcessPositionData(t: Position.RawTable): (r: Option<Position.PositionSummary>)
    ensures r.None? <==> !Position.HasRequiredColumns(StandardizeColumns(t))
    ensures r.Some? ==> (|r.value.rows| == t.height &&
      forall i :: 0 <= i < t.height ==> r.value.rows[i] == Position.RowAt(StandardizeColumns(t), i))
    ensures r.Some? ==>
      r.value.totalLong == Position.Total(r.value.rows, Position.LongOI) &&
      r.value.totalShort == Position.Total(r.value.rows, Position.ShortOI) &&
      r.value.totalLongChg == Position.Total(r.value.rows, Position.LongChg) &&
      r.value.totalShortChg == Position.Total(r.value.rows, Position.ShortChg)
  {
    var std := StandardizeColumns(t);
    if !Position.HasRequiredColumns(std) then None
    else
      var rows := Position.ParseRows(std, std.height);
      Some(Position.PositionSummary(rows,
        Position.Total(rows, Position.LongOI), Position.Total(rows, Position.ShortOI),
        Position.Total(rows, Position.LongChg), Position.Total(rows, Position.ShortChg)))
  }

  /** A table already in canonical form keeps all its rows, parsed in place. */
  lemma ProcessCanonicalTable(t: Position.RawTable)
    requires Position.HasRequiredColumns(t) && !Position.HasColumn(t, "g_party_n")
    ensures ProcessPositionData(t).Some?
    ensures ProcessPositionData(t).value.rows == Position.ParseRows(t, t.height)
  {
  }

  // ----- power change -----

  /**
   * `analyze_power_change` on the two total changes: bullish when longs
   * grow and shorts shrink, bearish the other way round, strength the sum of
   * both magnitudes; otherwise neutral with strength 0.
   */
  function AnalyzePowerChange(longChg: int, shortChg: int): (v: Signals.Verdict)
    ensures v.direction == Signals.Bullish <==> longChg > 0 && shortChg < 0
    ensures v.direction == Signals.Bearish <==> longChg < 0 && shortChg > 0
    ensures v.direction == Signals.Neutral <==> !(longChg > 0 && shortChg < 0) && !(longChg < 0 && shortChg > 0)
    ensures v.direction == Signals.Neutral ==> v.strength == 0.0
    ensures v.direction != Signals.Neutral ==> v.strength == (Abs(longChg) + Abs(shortChg)) as real && v.strength > 0.0
  {
    var strength := (Abs(longChg) + Abs(shortChg)) as real;
    if longChg > 0 && shortChg < 0 then Signals.Verdict(Signals.Bullish, strength)
    else if longChg < 0 && shortChg > 0 then Signals.Verdict(Signals.Bearish, strength)
    else Signals.Verdict(Signals.Neutral, 0.0)
  }

  function Abs(x: int): nat { if x < 0 then -x else x }

  function Opposite(d: Signals.Direction): Signals.Direction
  {
    match d
    case Bullish => Signals.Bearish
    case Bearish => Signals.Bullish
    case Neutral => Signals.Neutral
    case Failed => Signals.Failed
  }

  /** Swapping the roles of the two sides, or negating both changes, flips the direction and keeps the strength. */
  lemma PowerChangeMirror(longChg: int, shortChg: int)
    ensures AnalyzePowerChange(shortChg, longChg) == AnalyzePowerChange(longChg, shortChg).(direction := Opposite(AnalyzePowerChange(longChg, shortChg).direction))
    ensures AnalyzePowerChange(-longChg, -shortChg) == AnalyzePowerChange(longChg, shortChg).(direction := Opposite(AnalyzePowerChange(longChg, shortChg).direction))
  {
  }

  // ----- spider web -----

  /** Fewer eligible seats than this give no spider-web signal. */
  const MinEligibleSeats: nat := 5

  /** The mean-difference threshold for a directional spider-web signal. */
  const MsdThreshold: real := 0.05

  /** A seat enters the spider web with a positive volume and both holdings present. */
  predicate Eligible(r: Position.SeatRow)
  {
    r.vol.Some? && r.vol.value > 0 && r.longOI.Some? && r.shortOI.Some?
  }

  /** The eligible rows, in table order. */
  function EligibleRows(rows: seq<Position.SeatRow>): (e: seq<Position.SeatRow>)
    ensures forall x :: x in e <==> x in rows && Eligible(x)
    ensures |e| <= |rows|
  {
    if rows == [] then []
    else (if Eligible(rows[0]) then [rows[0]] else []) + EligibleRows(rows[1..])
  }

  /** `stat = (long + short) / vol`, the informedness of an eligible seat. */
  function Informedness(r: Position.SeatRow): real
  {
    if Eligible(r) then (r.longOI.value + r.shortOI.value) as real / r.vol.value as real else 0.0
  }

  /** `int(n * 0.4)` (the float 0.4 lies just above 2/5, so the product never rounds below it). */
  function InformedCount(n: nat): nat { 2 * n / 5 }

  /** `max(2, int(n * 0.4))`. */
  function Cutoff(n: nat): nat { if InformedCount(n) > 2 then InformedCount(n) else 2 }

  /** The eligible seats by informedness, highest first. */
  function ByInformedness(rows: seq<Position.SeatRow>): seq<Position.SeatRow>
  {
    Sorting.SortBy(EligibleRows(rows), Informedness, Sorting.RealDesc)
  }

  /** `iloc[:cutoff]`: the informed group. */
  function Informed(rows: seq<Position.SeatRow>): seq<Position.SeatRow>
  {
    Sorting.Take(ByInformedness(rows), Cutoff(|EligibleRows(rows)|))
  }

  /** `iloc[cutoff:]`: the uninformed group. */
  function Uninformed(rows: seq<Position.SeatRow>): seq<Position.SeatRow>
  {
    var sorted := ByInformedness(rows);
    sorted[|Sorting.Take(sorted, Cutoff(|sorted|))|..]
  }

  /** The two groups split the eligible seats, the informed group holding `int(0.4 n)` of them once the signal is computed. */
  lemma SpiderSplit(rows: seq<Position.SeatRow>)
    ensures Informed(rows) + Uninformed(rows) == ByInformedness(rows)
    ensures multiset(Informed(rows)) + multiset(Uninformed(rows)) == multiset(EligibleRows(rows))
    ensures |EligibleRows(rows)| >= MinEligibleSeats ==> |Informed(rows)| == InformedCount(|EligibleRows(rows)|)
  {
    var sorted := ByInformedness(rows);
    Sorting.TakeDrop(sorted, Cutoff(|sorted|));
  }

  /** Every informed seat ranks at least as high as every uninformed one. */
  lemma SpiderGroupsOrdered(rows: seq<Position.SeatRow>)
    ensures forall x, y :: x in Informed(rows) && y in Uninformed(rows) ==> Informedness(x) >= Informedness(y)
  {
    var sorted := ByInformedness(rows);
    Sorting.RealDescTotal();
    Sorting.SortBySorted(EligibleRows(rows), Informedness, Sorting.RealDesc);
    var k := |Informed(rows)|;
    assert Informed(rows) == sorted[..k];
    Sorting.SortedCut(sorted, Informedness, Sorting.RealDesc, k);
  }

  /** `(long - short) / (long + short)` for a seat with a positive total. */
  function Imbalance(r: Position.SeatRow): real
    requires Position.Lots(r.longOI) + Position.Lots(r.shortOI) > 0
  {
    (Position.Lots(r.longOI) - Position.Lots(r.shortOI)) as real / (Position.Lots(r.longOI) + Position.Lots(r.shortOI)) as real
  }

  /** The imbalances of the seats with a positive total, in order. */
  function Imbalances(rows: seq<Position.SeatRow>): seq<real>
  {
    if rows == [] then []
    else
      var last := rows[|rows| - 1];
      Imbalances(rows[..|rows| - 1]) +
        (if Position.Lots(last.longOI) + Position.Lots(last.shortOI) > 0 then [Imbalance(last)] else [])
  }

  /** With non-negative holdings every imbalance lies in [-1, 1]. */
  lemma {:induction false} ImbalancesBounded(rows: seq<Position.SeatRow>)
    requires forall r :: r in rows ==> Position.Lots(r.longOI) >= 0 && Position.Lots(r.shortOI) >= 0
    ensures forall i :: 0 <= i < |Imbalances(rows)| ==> -1.0 <= Imbalances(rows)[i] <= 1.0
  {
    if rows != [] {
      var last := rows[|rows| - 1];
      assert forall r :: r in rows[..|rows| - 1] ==> r in rows;
      ImbalancesBounded(rows[..|rows| - 1]);
      if Position.Lots(last.longOI) + Position.Lots(last.shortOI) > 0 {
        UnitRatio(Position.Lots(last.longOI) - Position.Lots(last.shortOI), Position.Lots(last.longOI) + Position.Lots(last.shortOI));
      }
    }
  }

  lemma UnitRatio(a: int, b: int)
    requires b > 0 && -b <= a <= b
    ensures -1.0 <= a as real / b as real <= 1.0
  {
    var q := a as real / b as real;
    assert q * b as real == a as real;
  }

  /** The spider-web rule on the difference of the two groups' mean imbalances. */
  function MsdVerdict(msd: real): (v: Signals.Verdict)
    ensures v.strength >= 0.0 && (v.strength == msd || v.strength == -msd)
    ensures v.direction == Signals.Bullish <==> msd > MsdThreshold
    ensures v.direction == Signals.Bearish <==> msd < -MsdThreshold
    ensures v.direction == Signals.Neutral <==> -MsdThreshold <= msd <= MsdThreshold
  {
    var strength := if msd < 0.0 then -msd else msd;
    if msd > MsdThreshold then Signals.Verdict(Signals.Bullish, strength)
    else if msd < -MsdThreshold then Signals.Verdict(Signals.Bearish, strength)
    else Signals.Verdict(Signals.Neutral, strength)
  }

  /** What `analyze_spider_web` answers for a table's rows. */
  function SpiderVerdict(rows: seq<Position.SeatRow>): Signals.Verdict
  {
    if |EligibleRows(rows)| < MinEligibleSeats then Signals.Verdict(Signals.Neutral, 0.0)
    else
      var its := Imbalances(Informed(rows));
      var uts := Imbalances(Uninformed(rows));
      if its == [] || uts == [] then Signals.Verdict(Signals.Neutral, 0.0)
      else MsdVerdict(Signals.Mean(its) - Signals.Mean(uts))
  }

  /** The spider-web strength is never negative, and at most 2 when holdings are non-negative. */
  lemma SpiderStrengthBound(rows: seq<Position.SeatRow>)
    requires forall r :: r in rows ==> Position.Lots(r.longOI) >= 0 && Position.Lots(r.shortOI) >= 0
    ensures 0.0 <= SpiderVerdict(rows).strength <= 2.0
    ensures SpiderVerdict(rows).direction != Signals.Failed
  {
    if |EligibleRows(rows)| >= MinEligibleSeats {
      var its := Imbalances(Informed(rows));
      var uts := Imbalances(Uninformed(rows));
      if its != [] && uts != [] {
        MsdBound(rows);
      }
    }
  }

  /** With non-negative holdings the two groups' mean imbalances differ by at most 2. */
  lemma MsdBound(rows: seq<Position.SeatRow>)
    requires forall r :: r in rows ==> Position.Lots(r.longOI) >= 0 && Position.Lots(r.shortOI) >= 0
    requires Imbalances(Informed(rows)) != [] && Imbalances(Uninformed(rows)) != []
    ensures -2.0 <= Signals.Mean(Imbalances(Informed(rows))) - Signals.Mean(Imbalances(Uninformed(rows))) <= 2.0
  {
    GroupMembers(rows);
    ImbalancesBounded(Informed(rows));
    ImbalancesBounded(Uninformed(rows));
    Signals.MeanBound(Imbalances(Informed(rows)), -1.0, 1.0);
    Signals.MeanBound(Imbalances(Uninformed(rows)), -1.0, 1.0);
  }

  lemma GroupMembers(rows: seq<Position.SeatRow>)
    ensures forall x :: x in Informed(rows) ==> x in rows
    ensures forall x :: x in Uninformed(rows) ==> x in rows
  {
    SpiderSplit(rows);
    forall x | x in Informed(rows) ensures x in rows {
      assert x in multiset(EligibleRows(rows));
    }
    forall x | x in Uninformed(rows) ensures x in rows {
      assert x in multiset(EligibleRows(rows));
    }
  }

  /** The loop over one group's rows that appends the imbalance of each seat with a positive total. */
  method CollectImbalances(group: seq<Position.SeatRow>) returns (values: seq<real>)
    ensures values == Imbalances(group)
  {
    values := [];
    var i := 0;
    while i < |group|
      invariant 0 <= i <= |group|
      invariant values == Imbalances(group[..i])
    {
      assert group[..i + 1][..i] == group[..i];
      var r := group[i];
      var totalPos := Position.Lots(r.longOI) + Position.Lots(r.shortOI);
      if totalPos > 0 {
        values := values + [(Position.Lots(r.longOI) - Position.Lots(r.shortOI)) as real / totalPos as real];
      }
      i := i + 1;
    }
    assert group[..i] == group;
  }

  /** `analyze_spider_web`. */
  method AnalyzeSpiderWeb(data: Position.PositionSummary) returns (v: Signals.Verdict)
    ensures v == SpiderVerdict(data.rows)
  {
    var valid := EligibleRows(data.rows);
    if |valid| < MinEligibleSeats {
      return Signals.Verdict(Signals.Neutral, 0.0);
    }
    var sorted := Sorting.SortBy(valid, Informedness, Sorting.RealDesc);
    var cutoff := Cutoff(|sorted|);
    var its := Sorting.Take(sorted, cutoff);
    var uts := sorted[|its|..];
    var itsValues := CollectImbalances(its);
    var utsValues := CollectImbalances(uts);
    if itsValues == [] || utsValues == [] {
      return Signals.Verdict(Signals.Neutral, 0.0);
    }
    var msd := Signals.Mean(itsValues) - Signals.Mean(utsValues);
    var strength := if msd < 0.0 then -msd else msd;
    if msd > MsdThreshold {
      v := Signals.Verdict(Signals.Bullish, strength);
    } else if msd < -MsdThreshold {
      v := Signals.Verdict(Signals.Bearish, strength);
    } else {
      v := Signals.Verdict(Signals.Neutral, strength);
    }
  }

  // ----- every-seat retail reverse -----

  /** A watched seat counts once it holds something on either side. */
  predicate Active(st: Position.SeatStats) { st.longPos > 0 || st.shortPos > 0 }

  /** Retail shorts grow while their longs do not: the contrarian reading is bullish. */
  predicate WantsLong(st: Position.SeatStats) { st.shortChg > 0 && st.longChg <= 0 }

  /** Retail longs grow while their shorts do not: the contrarian reading is bearish. */
  predicate WantsShort(st: Position.SeatStats) { st.longChg > 0 && st.shortChg <= 0 }

  /** The active seats among `order`, each with what it accumulated, in that order. */
  function ActiveOf(rows: seq<Position.SeatRow>, order: seq<string>): seq<Position.SeatStats>
  {
    if order == [] then []
    else
      var st := Position.StatsOf(rows, order[0]);
      (if Active(st) then [st] else []) + ActiveOf(rows, order[1..])
  }

  /** Exactly the watched seats holding something are listed, each with what it accumulated. */
  lemma {:induction false} ActiveOfMeaning(rows: seq<Position.SeatRow>, order: seq<string>)
    ensures forall st :: st in ActiveOf(rows, order) ==> Active(st) && st.name in order && st == Position.StatsOf(rows, st.name)
    ensures forall s :: s in order && Active(Position.StatsOf(rows, s)) ==> Position.StatsOf(rows, s) in ActiveOf(rows, order)
  {
    if order != [] {
      ActiveOfMeaning(rows, order[1..]);
      assert order == [order[0]] + order[1..];
    }
  }

  /** `retail_position`: the holdings of the active seats on both sides. */
  function Held(active: seq<Position.SeatStats>): int
  {
    if active == [] then 0 else active[0].longPos + active[0].shortPos + Held(active[1..])
  }

  /** `retail_position / total_position if total_position > 0 else 0`. */
  function PositionRatio(retail: int, total: int): real
  {
    if total > 0 then retail as real / total as real else 0.0
  }

  /**
   * The every-seat rule: bullish when every active seat wants long, bearish
   * when every one wants short, with the retail share of the open interest as
   * strength; neutral with strength 0 otherwise and when no seat is active.
   */
  function EverySeatVerdict(active: seq<Position.SeatStats>, totalPosition: int): (v: Signals.Verdict)
    ensures v.direction == Signals.Bullish <==> active != [] && forall st :: st in active ==> WantsLong(st)
    ensures v.direction == Signals.Bearish <==> active != [] && forall st :: st in active ==> WantsShort(st)
    ensures v.direction != Signals.Failed
    ensures v.direction == Signals.Neutral ==> v.strength == 0.0
    ensures v.direction != Signals.Neutral ==> v.strength == PositionRatio(Held(active), totalPosition)
  {
    var ratio := PositionRatio(Held(active), totalPosition);
    if active == [] then Signals.Verdict(Signals.Neutral, 0.0)
    else if forall st :: st in active ==> WantsLong(st) then
      assert active[0] in active;
      Signals.Verdict(Signals.Bullish, ratio)
    else if forall st :: st in active ==> WantsShort(st) then
      Signals.Verdict(Signals.Bearish, ratio)
    else Signals.Verdict(Signals.Neutral, 0.0)
  }

  /** What `analyze_retail_reverse` answers: the verdict and the active seats. */
  function RetailReverseVerdict(rows: seq<Position.SeatRow>, seats: seq<string>): Signals.Verdict
  {
    EverySeatVerdict(ActiveOf(rows, Position.Dedup(seats)),
      Position.Total(rows, Position.LongOI) + Position.Total(rows, Position.ShortOI))
  }

  /** `analyze_retail_reverse`: accumulate per watched seat, keep the active ones, apply the every-seat rule. */
  method AnalyzeRetailReverse(data: Position.PositionSummary, retailSeats: seq<string>)
    returns (v: Signals.Verdict, active: seq<Position.SeatStats>)
    ensures active == ActiveOf(data.rows, Position.Dedup(retailSeats))
    ensures v == RetailReverseVerdict(data.rows, retailSeats)
  {
    var stats := Position.AccumulateSeatStats(data.rows, retailSeats);
    active := CollectActive(data.rows, stats, Position.Dedup(retailSeats));
    var totalPosition := Position.Total(data.rows, Position.LongOI) + Position.Total(data.rows, Position.ShortOI);
    v := EverySeatVerdict(active, totalPosition);
  }

  /** The loop over `seat_stats.items()` that keeps the seats holding something. */
  method CollectActive(rows: seq<Position.SeatRow>, stats: map<string, Position.SeatStats>, order: seq<string>)
    returns (active: seq<Position.SeatStats>)
    requires forall s :: s in order ==> s in stats && stats[s] == Position.StatsOf(rows, s)
    ensures active == ActiveOf(rows, order)
  {
    active := [];
    var i := 0;
    while i < |order|
      invariant 0 <= i <= |order|
      invariant ActiveOf(rows, order) == active + ActiveOf(rows, order[i..])
    {
      ActiveOfStep(rows, order, i);
      assert order[i] in order;
      var st := stats[order[i]];
      ghost var rest := ActiveOf(rows, order[i + 1..]);
      if st.longPos > 0 || st.shortPos > 0 {
        assert ActiveOf(rows, order[i..]) == [st] + rest;
        assert active + ([st] + rest) == (active + [st]) + rest;
        active := active + [st];
      } else {
        assert ActiveOf(rows, order[i..]) == rest;
      }
      i := i + 1;
    }
  }

  lemma ActiveOfStep(rows: seq<Position.SeatRow>, order: seq<string>, i: nat)
    requires i < |order|
    ensures ActiveOf(rows, order[i..]) ==
      (if Active(Position.StatsOf(rows, order[i])) then [Position.StatsOf(rows, order[i])] else []) + ActiveOf(rows, order[i + 1..])
  {
    assert order[i..][1..] == order[i + 1..];
  }

  /** With non-negative holdings the active seats hold exactly what the watched seats hold. */
  lemma {:induction false} HeldIsSeatsTotal(rows: seq<Position.SeatRow>, order: seq<string>)
    requires forall r :: r in rows ==> Position.Lots(r.longOI) >= 0 && Position.Lots(r.shortOI) >= 0
    ensures Held(ActiveOf(rows, order)) ==
      Position.SeatsTotal(rows, order, Position.LongParty, Position.LongOI) +
      Position.SeatsTotal(rows, order, Position.ShortParty, Position.ShortOI)
  {
    if order != [] {
      HeldIsSeatsTotal(rows, order[1..]);
      var st := Position.StatsOf(rows, order[0]);
      SeatTotalNonNegative(rows, order[0], Position.LongParty, Position.LongOI);
      SeatTotalNonNegative(rows, order[0], Position.ShortParty, Position.ShortOI);
      var rest := ActiveOf(rows, order[1..]);
      if Active(st) {
        assert ([st] + rest)[0] == st && ([st] + rest)[1..] == rest;
      } else {
        assert [] + rest == rest;
      }
    }
  }

  lemma SeatTotalNonNegative(rows: seq<Position.SeatRow>, seat: string, party: Position.SeatRow -> string, f: Position.SeatRow -> Option<int>)
    requires forall r :: r in rows ==> Position.Lots(f(r)) >= 0
    ensures Position.SeatTotal(rows, seat, party, f) >= 0
  {
    Position.SeatsTotalBound(rows, [seat], party, f);
  }

  /** With non-negative holdings the retail-reverse strength is a share: between 0 and 1. */
  lemma RetailStrengthBound(rows: seq<Position.SeatRow>, seats: seq<string>)
    requires forall r :: r in rows ==> Position.Lots(r.longOI) >= 0 && Position.Lots(r.shortOI) >= 0
    ensures 0.0 <= RetailReverseVerdict(rows, seats).strength <= 1.0
  {
    var order := Position.Dedup(seats);
    HeldIsSeatsTotal(rows, order);
    Position.SeatsTotalBound(rows, order, Position.LongParty, Position.LongOI);
    Position.SeatsTotalBound(rows, order, Position.ShortParty, Position.ShortOI);
    var held := Held(ActiveOf(rows, order));
    var total := Position.Total(rows, Position.LongOI) + Position.Total(rows, Position.ShortOI);
    if total > 0 {
      ShareBound(held, total);
    }
  }

  lemma ShareBound(a: int, b: int)
    requires b > 0 && 0 <= a <= b
    ensures 0.0 <= a as real / b as real <= 1.0
  {
    var q := a as real / b as real;
    assert q * b as real == a as real;
  }

  // ----- strict term structure -----

  /** Contracts whose symbol does not end in four digits sort after every dated one. */
  const UndatedKey: int := 999999

  /** The two-digit year: below 50 in the 2000s, otherwise in the 1900s. */
  function Century(yy: nat): nat { if yy < 50 then 2000 + yy else 1900 + yy }

  /** `extract_month_info`: `YYYYMM` from a symbol ending in `YYMM`, or the undated key. */
  function MonthKey(symbol: string): int
  {
    if |symbol| >= 4 && Text.AllDigits(symbol[|symbol| - 4..]) then
      var tail := symbol[|symbol| - 4..];
      Century(Text.DigitsValue(tail[..2])) * 100 + Text.DigitsValue(tail[2..])
    else UndatedKey
  }

  /** A symbol carrying the year and month as `YYMM` receives the full year times 100 plus the month. */
  lemma MonthKeyOfCode(prefix: string, yy: nat, mm: nat)
    requires yy < 100 && mm < 100
    ensures MonthKey(prefix + Text.TwoDigits(yy) + Text.TwoDigits(mm)) == Century(yy) * 100 + mm
  {
    var s := prefix + Text.TwoDigits(yy) + Text.TwoDigits(mm);
    var tail := s[|s| - 4..];
    assert tail == Text.TwoDigits(yy) + Text.TwoDigits(mm);
    assert tail[..2] == Text.TwoDigits(yy) && tail[2..] == Text.TwoDigits(mm);
  }

  /** Between real months, the keys order contracts by year and then by month. */
  lemma MonthKeyChronological(yy1: nat, mm1: nat, yy2: nat, mm2: nat)
    requires yy1 < 100 && yy2 < 100 && 1 <= mm1 <= 12 && 1 <= mm2 <= 12
    ensures Century(yy1) * 100 + mm1 < Century(yy2) * 100 + mm2 <==>
      Century(yy1) < Century(yy2) || (Century(yy1) == Century(yy2) && mm1 < mm2)
  {
  }

  /** Every dated contract sorts before every undated one. */
  lemma DatedBeforeUndated(symbol: string)
    ensures MonthKey(symbol) <= UndatedKey
    ensures |symbol| >= 4 && Text.AllDigits(symbol[|symbol| - 4..]) ==> MonthKey(symbol) < UndatedKey
  {
    if |symbol| >= 4 && Text.AllDigits(symbol[|symbol| - 4..]) {
      var tail := symbol[|symbol| - 4..];
      TwoDigitBound(tail[..2]);
      TwoDigitBound(tail[2..]);
    }
  }

  lemma TwoDigitBound(s: string)
    requires |s| == 2 && Text.AllDigits(s)
    ensures Text.DigitsValue(s) < 100
  {
    assert s[..1][..0] == [] && s[..|s| - 1] == s[..1];
    assert Text.DigitsValue(s[..1]) == Text.DigitValue(s[0]);
  }

  function ContractMonth(r: Curves.PriceRow): int { MonthKey(r.symbol) }

  /** `_determine_structure_strict`: one pass keeping a flag for each direction. */
  method DetermineStructureStrict(prices: seq<real>) returns (s: Curves.Structure)
    ensures s == Curves.StrictStructure(prices)
  {
    if |prices| < 2 {
      return Curves.Flat;
    }
    var decreasing := true;
    var increasing := true;
    var i := 0;
    while i < |prices| - 1
      invariant 0 <= i <= |prices| - 1
      invariant decreasing <==> forall k :: 0 <= k < i ==> prices[k] > prices[k + 1]
      invariant increasing <==> forall k :: 0 <= k < i ==> prices[k] < prices[k + 1]
    {
      if prices[i] <= prices[i + 1] {
        decreasing := false;
      }
      if prices[i] >= prices[i + 1] {
        increasing := false;
      }
      i := i + 1;
    }
    if decreasing {
      s := Curves.Back;
    } else if increasing {
      s := Curves.Contango;
    } else {
      s := Curves.Flat;
    }
  }

  /** The curve of one variety: its rows with a positive close, nearest month first; none below two contracts. */
  function CurveOf(rows: seq<Curves.PriceRow>, v: string): Option<Curves.CurveResult>
  {
    var kept := Curves.WithPositiveClose(Curves.RowsOfVariety(rows, v));
    if |kept| < 2 then None
    else
      var sorted := Sorting.SortBy(kept, ContractMonth, Sorting.IntAsc);
      Some(Curves.CurveResult(v, Curves.StrictStructure(Curves.Closes(sorted)), Curves.Symbols(sorted), Curves.Closes(sorted)))
  }

  /** The curves of `vs` in order, skipping the varieties with fewer than two priced contracts. */
  function CurvesOf(rows: seq<Curves.PriceRow>, vs: seq<string>): seq<Curves.CurveResult>
  {
    if vs == [] then []
    else
      var c := CurveOf(rows, vs[|vs| - 1]);
      CurvesOf(rows, vs[..|vs| - 1]) + (if c.Some? then [c.value] else [])
  }

  lemma CurvesOfSnoc(rows: seq<Curves.PriceRow>, vs: seq<string>, i: nat)
    requires i < |vs|
    ensures CurvesOf(rows, vs[..i + 1]) ==
      CurvesOf(rows, vs[..i]) + (if CurveOf(rows, vs[i]).Some? then [CurveOf(rows, vs[i]).value] else [])
  {
    assert vs[..i + 1][..i] == vs[..i];
  }

  /** What `analyze_term_structure` returns: nothing for an empty table or one without the three columns. */
  function TermStructure(t: Curves.PriceTable): seq<Curves.CurveResult>
  {
    if t.rows == [] || !Curves.HasCurveColumns(t) then [] else CurvesOf(t.rows, Curves.Varieties(t.rows))
  }

  /** `analyze_term_structure`: one curve per variety, in order of first appearance. */
  method AnalyzeTermStructure(t: Curves.PriceTable) returns (results: seq<Curves.CurveResult>)
    ensures results == TermStructure(t)
  {
    if t.rows == [] || !Curves.HasCurveColumns(t) {
      return [];
    }
    results := [];
    var varieties := Curves.Varieties(t.rows);
    var i := 0;
    while i < |varieties|
      invariant 0 <= i <= |varieties|
      invariant results == CurvesOf(t.rows, varieties[..i])
    {
      CurvesOfSnoc(t.rows, varieties, i);
      var curve := BuildCurve(t.rows, varieties[i]);
      if curve.Some? {
        results := results + [curve.value];
      }
      i := i + 1;
    }
    assert varieties[..i] == varieties;
  }

  /** The body of the variety loop: filter, skip short curves, sort by month, classify. */
  method BuildCurve(rows: seq<Curves.PriceRow>, v: string) returns (c: Option<Curves.CurveResult>)
    ensures c == CurveOf(rows, v)
  {
    var data := Curves.WithPositiveClose(Curves.RowsOfVariety(rows, v));
    if |data| < 2 {
      return None;
    }
    data := Sorting.SortBy(data, ContractMonth, Sorting.IntAsc);
    var contracts := Curves.Symbols(data);
    var closes := Curves.Closes(data);
    var structure := DetermineStructureStrict(closes);
    c := Some(Curves.CurveResult(v, structure, contracts, closes));
  }

  /** Nearest month first: the symbols' delivery months never decrease. */
  ghost predicate MonthOrdered(symbols: seq<string>)
  {
    forall i, j :: 0 <= i < j < |symbols| ==> MonthKey(symbols[i]) <= MonthKey(symbols[j])
  }

  /**
   * A curve as the analyser promises it: two or more contracts, positive
   * closes, nearest month first, classified strictly, and made of exactly
   * its variety's priced rows.
   */
  ghost predicate WellFormedCurve(rows: seq<Curves.PriceRow>, c: Curves.CurveResult)
  {
    |c.contracts| == |c.closes| >= 2 &&
    (forall i :: 0 <= i < |c.closes| ==> c.closes[i] > 0.0) &&
    MonthOrdered(c.contracts) &&
    c.structure == Curves.StrictStructure(c.closes) &&
    Curves.DrawnFrom(rows, c)
  }

  lemma CurveOfWellFormed(rows: seq<Curves.PriceRow>, v: string)
    requires CurveOf(rows, v).Some?
    ensures CurveOf(rows, v).value.variety == v
    ensures WellFormedCurve(rows, CurveOf(rows, v).value)
  {
    var kept := Curves.Priced(rows, v);
    var sorted := Sorting.SortBy(kept, ContractMonth, Sorting.IntAsc);
    SortedCurve(kept, sorted);
    SortedRowsCurve(rows, v, sorted);
  }

  /** The curve of a variety's priced rows put in month order is well formed. */
  lemma SortedRowsCurve(rows: seq<Curves.PriceRow>, v: string, sorted: seq<Curves.PriceRow>)
    requires |sorted| >= 2 && multiset(sorted) == multiset(Curves.Priced(rows, v))
    requires forall i :: 0 <= i < |sorted| ==> Curves.Closes(sorted)[i] > 0.0
    requires MonthOrdered(Curves.Symbols(sorted))
    ensures WellFormedCurve(rows, Curves.CurveResult(v, Curves.StrictStructure(Curves.Closes(sorted)), Curves.Symbols(sorted), Curves.Closes(sorted)))
  {
    var c := Curves.CurveResult(v, Curves.StrictStructure(Curves.Closes(sorted)), Curves.Symbols(sorted), Curves.Closes(sorted));
    assert |c.contracts| == |c.closes| >= 2;
    assert forall i :: 0 <= i < |c.closes| ==> c.closes[i] > 0.0;
    assert Curves.DrawnFrom(rows, c) by {
      assert multiset(sorted) == multiset(Curves.Priced(rows, c.variety)) && c.contracts == Curves.Symbols(sorted) && c.closes == Curves.Closes(sorted);
    }
  }

  /** Sorting kept rows by month gives positive closes in month order. */
  lemma SortedCurve(kept: seq<Curves.PriceRow>, sorted: seq<Curves.PriceRow>)
    requires forall r :: r in kept ==> Curves.PositiveClose(r)
    requires sorted == Sorting.SortBy(kept, ContractMonth, Sorting.IntAsc)
    ensures forall i :: 0 <= i < |sorted| ==> Curves.Closes(sorted)[i] > 0.0
    ensures MonthOrdered(Curves.Symbols(sorted))
  {
    Sorting.IntAscTotal();
    Sorting.SortBySorted(kept, ContractMonth, Sorting.IntAsc);
    forall i | 0 <= i < |sorted| ensures Curves.Closes(sorted)[i] > 0.0 {
      assert sorted[i] in multiset(kept);
      assert sorted[i] in kept;
      assert Curves.Closes(sorted)[i] == sorted[i].close.value;
    }
    forall i, j | 0 <= i < j < |sorted| ensures MonthKey(Curves.Symbols(sorted)[i]) <= MonthKey(Curves.Symbols(sorted)[j]) {
      assert Sorting.IntAsc(ContractMonth(sorted[i]), ContractMonth(sorted[j]));
    }
  }

  /** Every curve returned is well formed, one per variety, varieties never repeated. */
  lemma {:induction false} TermStructureWellFormed(rows: seq<Curves.PriceRow>, vs: seq<string>)
    requires Position.NoDuplicates(vs)
    ensures forall c :: c in CurvesOf(rows, vs) ==> WellFormedCurve(rows, c) && c.variety in vs
    ensures Curves.DistinctVarieties(CurvesOf(rows, vs))
  {
    if vs != [] {
      var init := vs[..|vs| - 1];
      var v := vs[|vs| - 1];
      assert vs == init + [v];
      assert Position.NoDuplicates(init);
      TermStructureWellFormed(rows, init);
      var prev := CurvesOf(rows, init);
      var c := CurveOf(rows, v);
      if c.Some? {
        assert CurvesOf(rows, vs) == prev + [c.value];
        CurveOfWellFormed(rows, v);
        WellFormedSnoc(rows, vs, prev, c.value);
        assert v !in init;
        Curves.DistinctVarietiesSnoc(prev, c.value);
      } else {
        assert CurvesOf(rows, vs) == prev;
      }
    }
  }

  lemma WellFormedSnoc(rows: seq<Curves.PriceRow>, vs: seq<string>, prev: seq<Curves.CurveResult>, x: Curves.CurveResult)
    requires forall c :: c in prev ==> WellFormedCurve(rows, c) && c.variety in vs
    requires WellFormedCurve(rows, x) && x.variety in vs
    ensures forall c :: c in prev + [x] ==> WellFormedCurve(rows, c) && c.variety in vs
  {
  }

  /** Every variety of `vs` with two or more priced contracts gets its curve. */
  lemma {:induction false} CurvesOfComplete(rows: seq<Curves.PriceRow>, vs: seq<string>, v: string)
    requires v in vs && |Curves.Priced(rows, v)| >= 2
    ensures CurveOf(rows, v).Some? && CurveOf(rows, v).value in CurvesOf(rows, vs)
  {
    var init := vs[..|vs| - 1];
    if v != vs[|vs| - 1] {
      assert vs == init + [vs[|vs| - 1]];
      CurvesOfComplete(rows, init, v);
    }
  }

  /**
   * The table has a curve for a variety exactly when it has the three
   * columns and the variety has two or more priced contracts.
   */
  lemma TermStructureComplete(t: Curves.PriceTable, v: string)
    ensures (exists c :: c in TermStructure(t) && c.variety == v) <==>
      Curves.HasCurveColumns(t) && v in Curves.Varieties(t.rows) && |Curves.Priced(t.rows, v)| >= 2
  {
    var vs := Curves.Varieties(t.rows);
    if Curves.HasCurveColumns(t) && v in vs && |Curves.Priced(t.rows, v)| >= 2 {
      CurvesOfComplete(t.rows, vs, v);
      CurveOfWellFormed(t.rows, v);
    } else if t.rows != [] && Curves.HasCurveColumns(t) {
      TermStructureWellFormed(t.rows, vs);
      forall c | c in CurvesOf(t.rows, vs) ensures c.variety != v {
        Curves.DrawnSize(t.rows, c);
      }
    }
  }

  // ----- summary and resonance -----

  /** The three strategies the engine runs on every contract. */
  const StrategyNames: seq<string> := ["多空力量变化策略", "蜘蛛网策略", "家人席位反向操作策略"]

  /** One analysed contract: its key and the verdict of each strategy that ran. */
  datatype ContractResult = ContractResult(contract: string, strategies: map<string, Signals.Verdict>)

  /** The contracts on which strategy `name` gave direction `d`, in result order, with their strengths. */
  function SignalsOf(results: seq<ContractResult>, name: string, d: Signals.Direction): (es: seq<Signals.SignalEntry>)
    ensures |es| <= |results|
    ensures forall e :: e in es ==> exists r :: r in results && Gave(r, name, d) && e == EntryOf(r, name)
    ensures forall r :: r in results && Gave(r, name, d) ==> EntryOf(r, name) in es
  {
    if results == [] then []
    else
      var r := results[|results| - 1];
      SignalsOf(results[..|results| - 1], name, d) + (if Gave(r, name, d) then [EntryOf(r, name)] else [])
  }

  /** Strategy `name` ran on the contract and gave direction `d`. */
  predicate Gave(r: ContractResult, name: string, d: Signals.Direction)
  {
    name in r.strategies && r.strategies[name].direction == d
  }

  function EntryOf(r: ContractResult, name: string): Signals.SignalEntry
    requires name in r.strategies
  {
    Signals.SignalEntry(r.contract, r.strategies[name].strength)
  }

  /** What the summary lists for one strategy: its bullish and bearish signals, strongest first. */
  function StrategySummary(results: seq<ContractResult>, name: string): Signals.StrategySignals
  {
    Signals.StrategySignals(name,
      Signals.ByStrength(SignalsOf(results, name, Signals.Bullish)),
      Signals.ByStrength(SignalsOf(results, name, Signals.Bearish)))
  }

  /** A strategy's summary lists are exactly its directional signals, strongest first. */
  lemma StrategySummaryOrdered(results: seq<ContractResult>, name: string)
    ensures multiset(StrategySummary(results, name).long) == multiset(SignalsOf(results, name, Signals.Bullish))
    ensures multiset(StrategySummary(results, name).short) == multiset(SignalsOf(results, name, Signals.Bearish))
    ensures forall i, j :: 0 <= i < j < |StrategySummary(results, name).long| ==>
      StrategySummary(results, name).long[i].strength >= StrategySummary(results, name).long[j].strength
    ensures forall i, j :: 0 <= i < j < |StrategySummary(results, name).short| ==>
      StrategySummary(results, name).short[i].strength >= StrategySummary(results, name).short[j].strength
  {
    Signals.ByStrengthOrdered(SignalsOf(results, name, Signals.Bullish));
    Signals.ByStrengthOrdered(SignalsOf(results, name, Signals.Bearish));
  }

  /** The mentions one list of signals contributes: the variety code of each of its first ten contracts. */
  function MentionsOf(name: string, top: seq<Signals.SignalEntry>): seq<Signals.Mention>
  {
    Sorting.MapSeq(top, e => MentionOf(name, e))
  }

  /** One mention per signal, in order: the `i`-th is that of the `i`-th signal. */
  lemma MentionsOfMeaning(name: string, top: seq<Signals.SignalEntry>)
    ensures |MentionsOf(name, top)| == |top|
    ensures forall i :: 0 <= i < |top| ==> MentionsOf(name, top)[i] == MentionOf(name, top[i])
  {
    Sorting.MapSeqMeaning(top, e => MentionOf(name, e));
  }

  lemma MentionsOfSnoc(name: string, top: seq<Signals.SignalEntry>, j: nat)
    requires j < |top|
    ensures MentionsOf(name, top[..j + 1]) == MentionsOf(name, top[..j]) + [MentionOf(name, top[j])]
  {
    Sorting.MapSeqSnoc(top, j, e => MentionOf(name, e));
  }

  /** A signal names the variety code of its contract, for its strategy, with that one contract. */
  function MentionOf(name: string, e: Signals.SignalEntry): Signals.Mention
  {
    Signals.Mention(Utils.ExtractSymbolFromContract(e.contract), name, [e.contract])
  }

  /** All mentions of one direction, strategy by strategy, each strategy's first ten signals in order. */
  function DirectionMentions(signals: seq<Signals.StrategySignals>, long: bool): seq<Signals.Mention>
  {
    if signals == [] then []
    else
      var s := signals[|signals| - 1];
      DirectionMentions(signals[..|signals| - 1], long) +
        MentionsOf(s.name, Sorting.Take(if long then s.long else s.short, Signals.TopCount))
  }

  /** Each strategy contributes at most ten mentions per direction. */
  lemma {:induction false} DirectionMentionsBound(signals: seq<Signals.StrategySignals>, long: bool)
    ensures |DirectionMentions(signals, long)| <= Signals.TopCount * |signals|
  {
    if signals != [] {
      DirectionMentionsBound(signals[..|signals| - 1], long);
    }
  }

  /** Registering one list's mentions on top of a tally. */
  method TallyList(m: map<string, Signals.Resonance>, ghost before: seq<Signals.Mention>, name: string, top: seq<Signals.SignalEntry>)
    returns (r: map<string, Signals.Resonance>)
    requires m == Signals.Tally(before)
    ensures r == Signals.Tally(before + MentionsOf(name, top))
  {
    r := m;
    var j := 0;
    assert before + MentionsOf(name, top[..0]) == before;
    while j < |top|
      invariant 0 <= j <= |top|
      invariant r == Signals.Tally(before + MentionsOf(name, top[..j]))
    {
      var contract := top[j].contract;
      var e := Signals.Mention(Utils.ExtractSymbolFromContract(contract), name, [contract]);
      TallyListStep(before, name, top, j, e);
      r := Signals.Bump(r, e);
      j := j + 1;
    }
    assert top[..j] == top;
  }

  lemma TallyListStep(before: seq<Signals.Mention>, name: string, top: seq<Signals.SignalEntry>, j: nat, e: Signals.Mention)
    requires j < |top| && e == MentionOf(name, top[j])
    ensures Signals.Tally(before + MentionsOf(name, top[..j + 1])) == Signals.Bump(Signals.Tally(before + MentionsOf(name, top[..j])), e)
  {
    var prev := MentionsOf(name, top[..j]);
    MentionsOfSnoc(name, top, j);
    AppendSnoc(before, prev, e);
    Signals.TallySnoc(before + prev, e);
  }

  lemma AppendSnoc<T>(a: seq<T>, b: seq<T>, x: T)
    ensures a + (b + [x]) == (a + b) + [x]
  {
  }

  /** `_calculate_signal_resonance`: tally the first ten signals of every list and keep the codes counted at least twice. */
  method CalculateSignalResonance(signals: seq<Signals.StrategySignals>)
    returns (long: map<string, Signals.Resonance>, short: map<string, Signals.Resonance>)
    ensures long == Signals.Resonant(Signals.Tally(DirectionMentions(signals, true)))
    ensures short == Signals.Resonant(Signals.Tally(DirectionMentions(signals, false)))
  {
    var longCount: map<string, Signals.Resonance> := map[];
    var shortCount: map<string, Signals.Resonance> := map[];
    var i := 0;
    while i < |signals|
      invariant 0 <= i <= |signals|
      invariant longCount == Signals.Tally(DirectionMentions(signals[..i], true))
      invariant shortCount == Signals.Tally(DirectionMentions(signals[..i], false))
    {
      assert signals[..i + 1][..i] == signals[..i];
      var s := signals[i];
      longCount := TallyList(longCount, DirectionMentions(signals[..i], true), s.name, Sorting.Take(s.long, Signals.TopCount));
      shortCount := TallyList(shortCount, DirectionMentions(signals[..i], false), s.name, Sorting.Take(s.short, Signals.TopCount));
      i := i + 1;
    }
    assert signals[..i] == signals;
    long := Signals.Resonant(longCount);
    short := Signals.Resonant(shortCount);
  }

  /** A code is in the resonance exactly when it is mentioned at least twice, and its count is its number of mentions. */
  lemma ResonanceMeaning(signals: seq<Signals.StrategySignals>, long: bool, symbol: string)
    ensures var es := DirectionMentions(signals, long);
      (symbol in Signals.Resonant(Signals.Tally(es)) <==> Signals.Occurrences(es, symbol) >= 2) &&
      (symbol in Signals.Resonant(Signals.Tally(es)) ==>
        Signals.Resonant(Signals.Tally(es))[symbol].count == Signals.Occurrences(es, symbol) &&
        Signals.Resonant(Signals.Tally(es))[symbol].count == |Signals.Resonant(Signals.Tally(es))[symbol].strategies|)
  {
    var es := DirectionMentions(signals, long);
    Signals.ResonantIff(es, symbol);
    Signals.TallyCounts(es, symbol);
    Signals.TallyWellFormed(es);
  }

  /** The `statistics` part of the summary. */
  datatype Statistics = Statistics(
    totalContracts: nat, totalLongSignals: nat, totalShortSignals: nat,
    resonanceLongCount: nat, resonanceShortCount: nat)

  datatype Summary = Summary(
    strategySignals: seq<Signals.StrategySignals>,
    resonanceLong: map<string, Signals.Resonance>, resonanceShort: map<string, Signals.Resonance>,
    statistics: Statistics)

  /** How many signals of one direction the lists hold together. */
  function SignalCount(signals: seq<Signals.StrategySignals>, long: bool): nat
  {
    if signals == [] then 0
    else
      var s := signals[|signals| - 1];
      SignalCount(signals[..|signals| - 1], long) + |if long then s.long else s.short|
  }

  /** `_generate_summary`. */
  method GenerateSummary(results: seq<ContractResult>) returns (summary: Summary)
    ensures |summary.strategySignals| == |StrategyNames|
    ensures forall k :: 0 <= k < |StrategyNames| ==> summary.strategySignals[k] == StrategySummary(results, StrategyNames[k])
    ensures summary.resonanceLong == Signals.Resonant(Signals.Tally(DirectionMentions(summary.strategySignals, true)))
    ensures summary.resonanceShort == Signals.Resonant(Signals.Tally(DirectionMentions(summary.strategySignals, false)))
    ensures summary.statistics == Statistics(|results|,
      SignalCount(summary.strategySignals, true), SignalCount(summary.strategySignals, false),
      |summary.resonanceLong|, |summary.resonanceShort|)
  {
    var lists: seq<Signals.StrategySignals> := [];
    var k := 0;
    while k < |StrategyNames|
      invariant 0 <= k <= |StrategyNames|
      invariant |lists| == k
      invariant forall q :: 0 <= q < k ==> lists[q] == StrategySummary(results, StrategyNames[q])
    {
      var name := StrategyNames[k];
      var longSignals := SignalsOf(results, name, Signals.Bullish);
      var shortSignals := SignalsOf(results, name, Signals.Bearish);
      lists := lists + [Signals.StrategySignals(name, Signals.ByStrength(longSignals), Signals.ByStrength(shortSignals))];
      k := k + 1;
    }
    var long, short := CalculateSignalResonance(lists);
    var stats := Statistics(|results|, SignalCount(lists, true), SignalCount(lists, false), |long|, |short|);
    summary := Summary(lists, long, short, stats);
  }

  /** Lists of at most `n` signals each hold at most `n` signals per list together. */
  lemma {:induction false} SignalCountBound(signals: seq<Signals.StrategySignals>, n: nat, long: bool)
    requires forall s :: s in signals ==> |s.long| <= n && |s.short| <= n
    ensures SignalCount(signals, long) <= |signals| * n
  {
    if signals != [] {
      assert forall s :: s in signals[..|signals| - 1] ==> s in signals;
      SignalCountBound(signals[..|signals| - 1], n, long);
      assert signals[|signals| - 1] in signals;
    }
  }

  /** A strategy lists at most one signal per contract and direction. */
  lemma StrategySummaryLength(results: seq<ContractResult>, name: string)
    ensures |StrategySummary(results, name).long| <= |results| && |StrategySummary(results, name).short| <= |results|
  {
    StrategySummaryOrdered(results, name);
    assert |StrategySummary(results, name).long| == |multiset(SignalsOf(results, name, Signals.Bullish))|;
    assert |StrategySummary(results, name).short| == |multiset(SignalsOf(results, name, Signals.Bearish))|;
  }

  // ----- position download -----

  /** The exchanges whose rankings are downloaded, in the order they are tried. */
  const PositionExchanges: seq<string> := ["大商所", "中金所", "郑商所", "上期所", "广期所"]

  /** The workbook an exchange's rankings are written to. */
  function PositionFile(exchange: string): string { exchange + "持仓.xlsx" }

  /** What the remote ranking call for one exchange gives: an exception, or a map from contract to table. */
  datatype FetchOutcome = Raised | Fetched(sheets: seq<Sheets.Sheet>)

  /**
   * Whether exchange `i` ends up written: its call gave a non-empty dict and
   * `written(i)`, the outcome of its workbook write, says the write went
   * through (a raising write is caught like a raising call).
   */
  predicate Saved(fetch: nat -> FetchOutcome, written: nat -> bool, i: nat) {
    fetch(i).Fetched? && fetch(i).sheets != [] && written(i)
  }

  /** How many of the first `n` exchanges were written. */
  function SuccessCount(fetch: nat -> FetchOutcome, written: nat -> bool, n: nat): (c: nat)
    ensures c > 0 <==> exists i :: 0 <= i < n && Saved(fetch, written, i)
    ensures c <= n
  {
    if n == 0 then 0 else SuccessCount(fetch, written, n - 1) + (if Saved(fetch, written, n - 1) then 1 else 0)
  }

  /** The workbooks written after trying the first `n` exchanges. */
  function Downloaded(fetch: nat -> FetchOutcome, written: nat -> bool, n: nat): Sheets.Sink
    requires n <= |PositionExchanges|
  {
    if n == 0 then map[]
    else if Saved(fetch, written, n - 1) then
      Downloaded(fetch, written, n - 1)[PositionFile(PositionExchanges[n - 1]) := Sheets.CleanSheets(fetch(n - 1).sheets)]
    else Downloaded(fetch, written, n - 1)
  }

  /**
   * `fetch_position_data`: every exchange is tried; one whose call or write
   * raises is skipped, one with data is written under cleaned sheet names;
   * the result says whether any exchange was written.
   */
  method FetchPositionData(fetch: nat -> FetchOutcome, written: nat -> bool) returns (ok: bool, sink: Sheets.Sink)
    ensures ok <==> exists i :: 0 <= i < |PositionExchanges| && Saved(fetch, written, i)
    ensures sink == Downloaded(fetch, written, |PositionExchanges|)
  {
    var successCount := 0;
    sink := map[];
    var i := 0;
    while i < |PositionExchanges|
      invariant 0 <= i <= |PositionExchanges|
      invariant successCount == SuccessCount(fetch, written, i)
      invariant sink == Downloaded(fetch, written, i)
    {
      var outcome := fetch(i);
      if outcome.Fetched? && outcome.sheets != [] {
        if written(i) {
          sink := sink[PositionFile(PositionExchanges[i]) := Sheets.CleanSheets(outcome.sheets)];
          successCount := successCount + 1;
        }
      }
      i := i + 1;
    }
    ok := successCount > 0;
  }

  lemma PositionFilesDistinct()
    ensures forall i, j :: 0 <= i < j < |PositionExchanges| ==> PositionFile(PositionExchanges[i]) != PositionFile(PositionExchanges[j])
  {
    forall i, j | 0 <= i < j < |PositionExchanges|
      ensures PositionFile(PositionExchanges[i]) != PositionFile(PositionExchanges[j])
    {
      assert PositionFile(PositionExchanges[i])[0] == PositionExchanges[i][0];
      assert PositionFile(PositionExchanges[j])[0] == PositionExchanges[j][0];
    }
  }

  /** Exactly the exchanges with data whose write went through get a workbook, holding their tables under cleaned names. */
  lemma {:induction false} DownloadedContents(fetch: nat -> FetchOutcome, written: nat -> bool, n: nat, i: nat)
    requires n <= |PositionExchanges| && i < |PositionExchanges|
    ensures PositionFile(PositionExchanges[i]) in Downloaded(fetch, written, n) <==> i < n && Saved(fetch, written, i)
    ensures i < n && Saved(fetch, written, i) ==>
      Downloaded(fetch, written, n)[PositionFile(PositionExchanges[i])] == Sheets.CleanSheets(fetch(i).sheets)
  {
    if n > 0 {
      DownloadedContents(fetch, written, n - 1, i);
      if i != n - 1 {
        PositionFilesDistinct();
        assert PositionFile(PositionExchanges[i]) != PositionFile(PositionExchanges[n - 1]);
      }
    }
  }

  /** Nothing but the exchanges' workbooks is written. */
  lemma {:induction false} DownloadedFiles(fetch: nat -> FetchOutcome, written: nat -> bool, n: nat)
    requires n <= |PositionExchanges|
    ensures forall f :: f in Downloaded(fetch, written, n) ==> exists i :: 0 <= i < n && f == PositionFile(PositionExchanges[i])
  {
    if n > 0 {
      DownloadedFiles(fetch, written, n - 1);
    }
  }

  /** Every sheet written by the download has a name Excel accepts. */
  lemma SavedSheetNamesClean(fetch: nat -> FetchOutcome, written: nat -> bool, f: string, k: nat)
    requires f in Downloaded(fetch, written, |PositionExchanges|) && k < |Downloaded(fetch, written, |PositionExchanges|)[f]|
    ensures var name := Downloaded(fetch, written, |PositionExchanges|)[f][k].name;
      |name| <= Sheets.MaxSheetName && '/' !in name && '*' !in name
  {
    DownloadedFiles(fetch, written, |PositionExchanges|);
    var i :| 0 <= i < |PositionExchanges| && f == PositionFile(PositionExchanges[i]);
    DownloadedContents(fetch, written, |PositionExchanges|, i);
  }

  // ----- trade dates -----

  /** `validate_trade_date`: whether `strptime(s, '%Y%m%d')` accepts the text. */
  function ValidateTradeDate(s: string): (ok: bool)
    ensures ok ==> |s| >= 5 && Text.AllDigits(s[..4])
  {
    Calendar.ParseYmd(s).Some?
  }

  /** Every date written as `YYYYMMDD` is accepted. */
  lemma TradeDateAcceptsFormatted(d: Calendar.Date)
    requires Calendar.Valid(d)
    ensures ValidateTradeDate(Calendar.FormatYmd(d))
  {
    Calendar.ParseFormatRoundTrip(d);
  }
}
