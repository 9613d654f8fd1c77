/**
 * The integrated position fetcher (`integrated_data_fetcher.py`): repairing
 * three-digit contract codes, guessing a variety's main contract from the
 * trade date, turning the per-type seat rankings into exchange-workbook
 * sheets, and the five-exchange download that succeeds from three
 * exchanges on.
 */
module IntegratedFetcher {
  import opened Wrappers
  import Text
  import Sorting
  import Position
  import Calendar
  import Sheets
  import HoldPos

  // ----- _fix_contract_code -----

  predicate IsAsciiLetter(c: char) { Text.IsAsciiUpper(c) || Text.IsAsciiLower(c) }

  /** The greedy `[A-Za-z]+` at the start of `s` (empty when it does not match). */
  function LetterRun(s: string): (r: string)
    ensures r <= s && forall i :: 0 <= i < |r| ==> IsAsciiLetter(r[i])
    ensures |r| < |s| ==> !IsAsciiLetter(s[|r|])
  {
    if s == [] || !IsAsciiLetter(s[0]) then [] else [s[0]] + LetterRun(s[1..])
  }

  /** The greedy `\d+` at the start of `s`. */
  function DigitRun(s: string): (r: string)
    ensures r <= s && Text.AllDigits(r)
    ensures |r| < |s| ==> !Text.IsAsciiDigit(s[|r|])
  {
    if s == [] || !Text.IsAsciiDigit(s[0]) then [] else [s[0]] + DigitRun(s[1..])
  }

  /**
   * `_fix_contract_code`: `re.match(r'([A-Za-z]+)(\d+)', contract.upper())`;
   * a three-digit month code gets a `2` in front, anything else is returned
   * as it came.
   */
  function FixContractCode(contract: string): (r: string)
    ensures contract == [] ==> r == contract
    ensures r != contract ==> |r| == |LetterRun(Text.Upper(contract))| + 4
  {
    if contract == [] then contract
    else
      var u := Text.Upper(contract);
      var prefix := LetterRun(u);
      var digits := DigitRun(u[|prefix|..]);
      if prefix != [] && |digits| == 3 then prefix + "2" + digits else contract
  }

  lemma LetterRunOf(letters: string, rest: string)
    requires forall i :: 0 <= i < |letters| ==> IsAsciiLetter(letters[i])
    requires rest == [] || !IsAsciiLetter(rest[0])
    ensures LetterRun(letters + rest) == letters
    decreases |letters|
  {
    var s := letters + rest;
    if letters != [] {
      assert s[0] == letters[0];
      assert s[1..] == letters[1..] + rest;
      LetterRunOf(letters[1..], rest);
      assert LetterRun(s) == [letters[0]] + letters[1..];
    } else {
      assert s == rest;
    }
  }

  lemma DigitRunOf(digits: string, rest: string)
    requires Text.AllDigits(digits)
    requires rest == [] || !Text.IsAsciiDigit(rest[0])
    ensures DigitRun(digits + rest) == digits
    decreases |digits|
  {
    var s := digits + rest;
    if digits != [] {
      assert s[0] == digits[0];
      assert s[1..] == digits[1..] + rest;
      DigitRunOf(digits[1..], rest);
      assert DigitRun(s) == [digits[0]] + digits[1..];
    } else {
      assert s == rest;
    }
  }

  lemma UpperOfConcat(a: string, b: string)
    ensures Text.Upper(a + b) == Text.Upper(a) + Text.Upper(b)
  {
  }

  lemma UpperKeepsDigits(s: string)
    requires Text.AllDigits(s)
    ensures Text.Upper(s) == s
  {
  }

  lemma UpperKeepsLetters(s: string)
    requires forall i :: 0 <= i < |s| ==> IsAsciiLetter(s[i])
    ensures forall i :: 0 <= i < |Text.Upper(s)| ==> Text.IsAsciiUpper(Text.Upper(s)[i])
  {
  }

  /** Letters followed by exactly three digits: the letters upper-cased, then `2`, then the digits; what follows is dropped. */
  lemma FixThreeDigitCode(letters: string, digits: string, rest: string)
    requires letters != [] && forall i :: 0 <= i < |letters| ==> IsAsciiLetter(letters[i])
    requires |digits| == 3 && Text.AllDigits(digits)
    requires rest == [] || !Text.IsAsciiDigit(rest[0])
    ensures FixContractCode(letters + digits + rest) == Text.Upper(letters) + "2" + digits
  {
    var c := letters + digits + rest;
    var up := Text.Upper(letters);
    var ur := Text.Upper(rest);
    UpperOfConcat(letters + digits, rest);
    UpperOfConcat(letters, digits);
    UpperKeepsDigits(digits);
    UpperKeepsLetters(letters);
    assert ur == [] || !Text.IsAsciiDigit(ur[0]);
    assert Text.Upper(letters + digits) == up + digits;
    assert Text.Upper(c) == (up + digits) + ur;
    ConcatAssoc(up, digits, ur);
    assert (digits + ur)[0] == digits[0];
    LetterRunOf(up, digits + ur);
    DigitRunOf(digits, ur);
    FixOf(c, up, digits + ur, digits);
  }

  lemma ConcatAssoc(a: string, b: string, c: string)
    ensures (a + b) + c == a + (b + c)
  {
  }

  /** `_fix_contract_code` once the letter run and the digit run are known. */
  lemma FixOf(contract: string, prefix: string, tail: string, digits: string)
    requires contract != [] && Text.Upper(contract) == prefix + tail
    requires LetterRun(prefix + tail) == prefix && DigitRun(tail) == digits
    ensures FixContractCode(contract) == if prefix != [] && |digits| == 3 then prefix + "2" + digits else contract
  {
    assert Text.Upper(contract)[|prefix|..] == tail;
  }

  /** A code whose digits already number four is left alone. */
  lemma FixFourDigitCode(letters: string, digits: string)
    requires letters != [] && forall i :: 0 <= i < |letters| ==> Text.IsAsciiUpper(letters[i])
    requires |digits| == 4 && Text.AllDigits(digits)
    ensures FixContractCode(letters + digits) == letters + digits
  {
    var c := letters + digits;
    UpperOfConcat(letters, digits);
    UpperKeepsDigits(digits);
    assert Text.Upper(letters) == letters;
    assert Text.Upper(c) == c;
    LetterRunOf(letters, digits);
    assert c[|letters|..] == digits + [];
    DigitRunOf(digits, []);
  }

  /** Fixing a fixed code changes nothing: the repaired code has four digits. */
  lemma FixContractCodeIdempotent(contract: string)
    ensures FixContractCode(FixContractCode(contract)) == FixContractCode(contract)
  {
    var r := FixContractCode(contract);
    if r != contract {
      var u := Text.Upper(contract);
      var prefix := LetterRun(u);
      var digits := DigitRun(u[|prefix|..]);
      assert r == prefix + ("2" + digits);
      forall i | 0 <= i < |prefix| ensures Text.IsAsciiUpper(prefix[i]) {
        assert prefix[i] == u[i];
      }
      FixFourDigitCode(prefix, "2" + digits);
    }
  }

  // ----- get_main_contract_from_symbol -----

  /**
   * How a variety's main month is chosen: the trade month itself, or the
   * first listed month not yet past. Listed months are kept as their
   * numbers; the two-digit strings of the source are `Text.TwoDigits` of them.
   */
  datatype MonthRule = TradeMonth | ListedMonths(months: seq<nat>)

  const IndexFutures: seq<string> := ["IC", "IF", "IH"]

  const SteelMonths: seq<nat> := [1, 5, 10]
  const MetalMonths: seq<nat> := [3, 6, 9, 12]
  const QuarterlyMonths: seq<nat> := [1, 5, 9]
  const OddMonths: seq<nat> := [1, 3, 5, 7, 9, 11]

  /** A month list as the fetcher needs it: calendar months in increasing order. */
  predicate MonthList(ms: seq<nat>)
  {
    ms != [] &&
    (forall i :: 0 <= i < |ms| ==> 1 <= ms[i] <= 12) &&
    (forall i, j :: 0 <= i < j < |ms| ==> ms[i] < ms[j])
  }

  function MainMonths(symbol: string): (rule: MonthRule)
    ensures rule.TradeMonth? <==> symbol in IndexFutures
    ensures rule.ListedMonths? ==> MonthList(rule.months)
  {
    if symbol in ["RB", "HC"] then ListedMonths(SteelMonths)
    else if symbol in ["CU", "AL", "ZN", "PB", "NI", "SN"] then ListedMonths(MetalMonths)
    else if symbol in ["I", "J", "JM"] then ListedMonths(QuarterlyMonths)
    else if symbol in ["M", "Y", "P", "A"] then ListedMonths(QuarterlyMonths)
    else if symbol in ["CF", "SR", "TA"] then ListedMonths(QuarterlyMonths)
    else if symbol in IndexFutures then TradeMonth
    else ListedMonths(OddMonths)
  }

  /** `str(year)[-2:]`. */
  function YearSuffix(year: nat): (s: string)
    ensures 1 <= |s| <= 2 && Text.AllDigits(s)
    ensures Text.DigitsValue(s) == year % 100
    ensures year >= 10 ==> |s| == 2
  {
    Text.LastTwoOfNatToString(year);
    Text.LastTwo(Text.NatToString(year))
  }

  /** The index of the first listed month that is not before `month`. */
  function FirstMonthFrom(months: seq<nat>, month: int): (r: Option<nat>)
    ensures r.Some? ==> r.value < |months| && months[r.value] >= month
    ensures r.Some? ==> forall j :: 0 <= j < r.value ==> months[j] < month
    ensures r.None? ==> forall j :: 0 <= j < |months| ==> months[j] < month
  {
    if months == [] then None
    else if months[0] >= month then Some(0)
    else match FirstMonthFrom(months[1..], month)
      case Some(k) => Some(k + 1)
      case None => None
  }

  /** The year and month a main contract is for, given a parsed trade date. */
  function ChosenMonth(symbol: string, d: Calendar.Date): (ym: (int, nat))
    requires Calendar.Valid(d)
    ensures 1 <= ym.1 <= 12
  {
    match MainMonths(symbol)
    case TradeMonth => (d.year, d.month)
    case ListedMonths(ms) =>
      match FirstMonthFrom(ms, d.month)
      case Some(k) => (d.year, ms[k])
      case None => (d.year + 1, ms[0])
  }

  /**
   * `get_main_contract_from_symbol`: nothing for a date `strptime` rejects;
   * otherwise the variety code, the last two digits of the chosen year and
   * the two-digit chosen month.
   */
  function MainContract(symbol: string, dateStr: string): (r: Option<string>)
    ensures r.None? <==> Calendar.ParseYmd(dateStr).None?
    ensures r.Some? ==> |symbol| + 3 <= |r.value| <= |symbol| + 4 && r.value[..|symbol|] == symbol
    ensures r.Some? ==> Calendar.ParseYmd(dateStr).Some? && SpellsMonth(r.value, symbol, ChosenMonth(symbol, Calendar.ParseYmd(dateStr).value))
  {
    match Calendar.ParseYmd(dateStr)
    case None => None
    case Some(d) =>
      var ym := ChosenMonth(symbol, d);
      var code := symbol + (YearSuffix(ym.0) + Text.TwoDigits(ym.1));
      CodeParts(symbol, YearSuffix(ym.0), Text.TwoDigits(ym.1), ym);
      assert code[..|symbol|] == symbol;
      Some(code)
  }

  /** `code` is the symbol, then digits for the year modulo 100, then the month in two digits. */
  predicate SpellsMonth(code: string, symbol: string, ym: (int, nat))
  {
    |symbol| + 2 <= |code| && code[..|symbol|] == symbol && Text.AllDigits(code[|symbol|..]) &&
    Text.DigitsValue(code[|symbol|..|code| - 2]) == ym.0 % 100 &&
    Text.DigitsValue(code[|code| - 2..]) == ym.1
  }

  /** The code read back: the symbol, then the year digits, then the two month digits. */
  lemma CodeParts(symbol: string, year: string, month: string, ym: (int, nat))
    requires Text.AllDigits(year) && Text.AllDigits(month) && |month| == 2
    requires Text.DigitsValue(year) == ym.0 % 100 && Text.DigitsValue(month) == ym.1
    ensures SpellsMonth(symbol + (year + month), symbol, ym)
  {
    var code := symbol + (year + month);
    assert code[|symbol|..] == year + month;
    assert code[|symbol|..|code| - 2] == year && code[|code| - 2..] == month;
  }

  /**
   * The chosen month: an index future's is the trade month; any other
   * variety's is a listed month, the earliest listed month not before the
   * trade month in the trade year, or else the first listed month of the next
   * year, when every listed month is already past.
   */
  lemma ChosenMonthMeaning(symbol: string, d: Calendar.Date)
    requires Calendar.Valid(d)
    ensures var ym := ChosenMonth(symbol, d);
      (symbol in IndexFutures ==> ym == (d.year, d.month)) &&
      (symbol !in IndexFutures ==> ym.1 in MainMonths(symbol).months) &&
      (ym.0 == d.year || ym.0 == d.year + 1) &&
      (ym.0 == d.year ==> ym.1 >= d.month) &&
      (symbol !in IndexFutures && ym.0 == d.year ==>
        forall m :: m in MainMonths(symbol).months && m >= d.month ==> ym.1 <= m) &&
      (ym.0 == d.year + 1 ==> (symbol !in IndexFutures &&
        forall m :: m in MainMonths(symbol).months ==> m < d.month && ym.1 <= m))
  {
    match MainMonths(symbol)
    case TradeMonth =>
    case ListedMonths(ms) =>
      match FirstMonthFrom(ms, d.month)
      case Some(k) =>
        forall m | m in ms && m >= d.month ensures ms[k] <= m {
          var j :| 0 <= j < |ms| && ms[j] == m;
        }
      case None =>
        forall m | m in ms ensures m < d.month && ms[0] <= m {
          var j :| 0 <= j < |ms| && ms[j] == m;
        }
  }

  /**
   * For an upper-case variety code and a year from 10 on, the main contract
   * already has four digits, so `_fix_contract_code` leaves it alone.
   */
  lemma MainContractNeedsNoFix(symbol: string, dateStr: string)
    requires symbol != [] && forall i :: 0 <= i < |symbol| ==> Text.IsAsciiUpper(symbol[i])
    requires Calendar.ParseYmd(dateStr).Some? && Calendar.ParseYmd(dateStr).value.year >= 10
    ensures MainContract(symbol, dateStr).Some?
    ensures FixContractCode(MainContract(symbol, dateStr).value) == MainContract(symbol, dateStr).value
  {
    var d := Calendar.ParseYmd(dateStr).value;
    var ym := ChosenMonth(symbol, d);
    var yy := YearSuffix(ym.0);
    var mm := Text.TwoDigits(ym.1);
    ChosenMonthMeaning(symbol, d);
    assert ym.0 >= 10;
    assert |Text.NatToString(ym.0)| >= 2;
    assert |yy| == 2;
    var digits := yy + mm;
    assert Text.AllDigits(digits) by {
      forall i | 0 <= i < |digits| ensures Text.IsAsciiDigit(digits[i]) {
        if i < 2 { assert digits[i] == yy[i]; } else { assert digits[i] == mm[i - 2]; }
      }
    }
    assert MainContract(symbol, dateStr).value == symbol + digits;
    FixFourDigitCode(symbol, digits);
  }

  /** The month loop: `for month in main_months: if int(month) >= current_month: ... break`. */
  method SelectMainMonth(months: seq<nat>, month: int) returns (k: Option<nat>)
    ensures k == FirstMonthFrom(months, month)
  {
    var i := 0;
    while i < |months|
      invariant 0 <= i <= |months|
      invariant FirstMonthFrom(months, month) == Shift(FirstMonthFrom(months[i..], month), i)
    {
      if months[i] >= month {
        assert months[i..][0] == months[i];
        return Some(i);
      }
      assert months[i..][0] == months[i] && months[i..][1..] == months[i + 1..];
      i := i + 1;
    }
    assert months[i..] == [];
    return None;
  }

  function Shift(k: Option<nat>, offset: nat): Option<nat>
  {
    if k.Some? then Some(k.value + offset) else None
  }

  /** `get_main_contract_from_symbol` step by step. */
  method GetMainContractFromSymbol(symbol: string, dateStr: string) returns (r: Option<string>)
    ensures r == MainContract(symbol, dateStr)
  {
    var parsed := Calendar.ParseYmd(dateStr);
    if parsed.None? {
      return None;
    }
    var ym := SelectYearMonth(symbol, parsed.value);
    r := Some(symbol + (YearSuffix(ym.0) + Text.TwoDigits(ym.1)));
  }

  /** The year and month step of `get_main_contract_from_symbol`. */
  method SelectYearMonth(symbol: string, d: Calendar.Date) returns (ym: (int, nat))
    requires Calendar.Valid(d)
    ensures ym == ChosenMonth(symbol, d)
  {
    var rule := MainMonths(symbol);
    if rule.TradeMonth? {
      return (d.year, d.month);
    }
    var months := rule.months;
    var k := SelectMainMonth(months, d.month);
    if k.None? {
      ym := (d.year + 1, months[0]);
    } else {
      ym := (d.year, months[k.value]);
    }
  }

  // ----- convert_to_exchange_format -----

  /** One workbook row per base row, with the short and volume figures of the same member (the last such row), 0 if absent. */
  function Merge(base: seq<HoldPos.PosRecord>, fromLong: bool, short: seq<HoldPos.PosRecord>, volume: seq<HoldPos.PosRecord>)
    : (r: seq<HoldPos.ExchangeRow>)
    ensures |r| == |base|
    ensures forall i :: 0 <= i < |base| ==> r[i].rank == base[i].rank && r[i].member == base[i].member
    ensures forall i :: 0 <= i < |base| ==> r[i].longPos == (if fromLong then base[i].amount else 0)
  {
    if base == [] then []
    else
      var b := base[0];
      var s := HoldPos.LastOf(short, b.member);
      [HoldPos.ExchangeRow(b.rank, b.member, HoldPos.AmountOr0(HoldPos.LastOf(volume, b.member)),
        if fromLong then b.amount else 0, if fromLong then b.change else 0,
        HoldPos.AmountOr0(s), HoldPos.ChangeOr0(s))] + Merge(base[1..], fromLong, short, volume)
  }

  /** A member missing from the short table gets zero short figures; a present one gets its last short row. */
  lemma MergeShortFigures(base: seq<HoldPos.PosRecord>, fromLong: bool, short: seq<HoldPos.PosRecord>, volume: seq<HoldPos.PosRecord>, i: nat)
    requires i < |base|
    ensures var r := Merge(base, fromLong, short, volume)[i];
      ((forall x :: x in short ==> x.member != base[i].member) ==> r.shortPos == 0 && r.shortChg == 0) &&
      ((forall x :: x in volume ==> x.member != base[i].member) ==> r.volume == 0) &&
      (forall x :: x in short && x.member == base[i].member ==>
        r.shortPos == HoldPos.LastOf(short, base[i].member).value.amount)
  {
    if i > 0 {
      MergeShortFigures(base[1..], fromLong, short, volume, i - 1);
    }
  }

  /**
   * The sheet built from one variety's three tables: long holdings give the
   * rank and member column when there are any, else the short table, else
   * the volume table; at most twenty rows; no sheet when all three are empty.
   */
  function SheetOf(long: seq<HoldPos.PosRecord>, short: seq<HoldPos.PosRecord>, volume: seq<HoldPos.PosRecord>, name: string)
    : (r: Option<HoldPos.ExchangeSheet>)
    ensures r.None? <==> long == [] && short == [] && volume == []
    ensures r.Some? ==> r.value.name == name && 0 < |r.value.rows| <= HoldPos.MaxSeats
  {
    if long == [] && short == [] && volume == [] then None
    else
      var base := if long != [] then long else if short != [] then short else volume;
      Some(HoldPos.ExchangeSheet(name, Sorting.Take(Merge(base, long != [], short, volume), HoldPos.MaxSeats)))
  }

  /** The rows of a sheet are the first rows of its base table, in their ranked order. */
  lemma SheetOfRows(long: seq<HoldPos.PosRecord>, short: seq<HoldPos.PosRecord>, volume: seq<HoldPos.PosRecord>, name: string)
    requires SheetOf(long, short, volume, name).Some?
    ensures var base := if long != [] then long else if short != [] then short else volume;
      var rows := SheetOf(long, short, volume, name).value.rows;
      |rows| == (if |base| < HoldPos.MaxSeats then |base| else HoldPos.MaxSeats) &&
      forall i :: 0 <= i < |rows| ==> (rows[i].rank == base[i].rank && rows[i].member == base[i].member &&
        rows[i].longPos == (if long != [] then base[i].amount else 0))
  {
    var base := if long != [] then long else if short != [] then short else volume;
    var merged := Merge(base, long != [], short, volume);
    var rows := SheetOf(long, short, volume, name).value.rows;
    assert rows == Sorting.Take(merged, HoldPos.MaxSeats);
    forall i | 0 <= i < |rows| ensures rows[i] == merged[i] {
    }
  }

  /** `convert_to_exchange_format` for one variety: its long, short and volume rows, under `name(code)`. */
  function SymbolSheet(rs: seq<HoldPos.PosRecord>, names: map<string, string>, symbol: string): (r: Option<HoldPos.ExchangeSheet>)
    ensures r.Some? ==> r.value.name == HoldPos.SheetName(names, symbol) && 0 < |r.value.rows| <= HoldPos.MaxSeats
  {
    var mine := HoldPos.OfSymbol(rs, symbol);
    SheetOf(HoldPos.OfKind(mine, HoldPos.LongHolding), HoldPos.OfKind(mine, HoldPos.ShortHolding),
      HoldPos.OfKind(mine, HoldPos.Volume), HoldPos.SheetName(names, symbol))
  }

  /** Every variety that has a row gets a sheet. */
  lemma SymbolSheetPresent(rs: seq<HoldPos.PosRecord>, names: map<string, string>, symbol: string)
    requires symbol in HoldPos.SymbolColumn(rs)
    ensures SymbolSheet(rs, names, symbol).Some?
  {
    var k :| 0 <= k < |rs| && HoldPos.SymbolColumn(rs)[k] == symbol;
    var x := rs[k];
    assert x in rs;
    var mine := HoldPos.OfSymbol(rs, symbol);
    assert x in mine;
    var long := HoldPos.OfKind(mine, HoldPos.LongHolding);
    var short := HoldPos.OfKind(mine, HoldPos.ShortHolding);
    var volume := HoldPos.OfKind(mine, HoldPos.Volume);
    assert x in HoldPos.OfKind(mine, x.kind);
    match x.kind
    case LongHolding => assert x in long;
    case ShortHolding => assert x in short;
    case Volume => assert x in volume;
  }

  /** The sheets that were built, in order. */
  function Present<T>(opts: seq<Option<T>>): (r: seq<T>)
    ensures |r| <= |opts|
  {
    if opts == [] then []
    else Present(opts[..|opts| - 1]) + (if opts[|opts| - 1].Some? then [opts[|opts| - 1].value] else [])
  }

  /** One more entry adds its sheet, if any, at the end. */
  lemma PresentStep<T>(opts: seq<Option<T>>, i: nat, done: seq<T>, o: Option<T>)
    requires i < |opts| && done == Present(opts[..i]) && o == opts[i]
    ensures Present(opts[..i + 1]) == if o.Some? then done + [o.value] else done
  {
    assert opts[..i + 1][..i] == opts[..i];
  }

  /** With nothing missing, every entry is kept, in place. */
  lemma {:induction false} PresentAll<T>(opts: seq<Option<T>>)
    requires forall i :: 0 <= i < |opts| ==> opts[i].Some?
    ensures |Present(opts)| == |opts|
    ensures forall i :: 0 <= i < |opts| ==> Present(opts)[i] == opts[i].value
  {
    if opts != [] {
      var init := opts[..|opts| - 1];
      PresentAll(init);
      assert Present(opts) == Present(init) + [opts[|opts| - 1].value];
    }
  }

  /** One optional sheet per variety. */
  function SymbolSheets(rs: seq<HoldPos.PosRecord>, names: map<string, string>, symbols: seq<string>)
    : (r: seq<Option<HoldPos.ExchangeSheet>>)
    ensures |r| == |symbols| && forall i :: 0 <= i < |symbols| ==> r[i] == SymbolSheet(rs, names, symbols[i])
  {
    seq(|symbols|, i requires 0 <= i < |symbols| => SymbolSheet(rs, names, symbols[i]))
  }

  /** `convert_to_exchange_format`: no frames give no sheets; otherwise one sheet per variety, in order of first appearance. */
  function Convert(frames: seq<seq<HoldPos.PosRecord>>, names: map<string, string>): (r: seq<HoldPos.ExchangeSheet>)
    ensures frames == [] ==> r == []
    ensures frames != [] ==> |r| <= |HoldPos.SymbolsOf(HoldPos.Concat(frames))|
  {
    if frames == [] then []
    else
      var all := HoldPos.Concat(frames);
      Present(SymbolSheets(all, names, HoldPos.SymbolsOf(all)))
  }

  /**
   * The sheets of the converted workbook: exactly one per variety of the
   * frames, in order of first appearance, each named `name(code)`, with at
   * most twenty rows.
   */
  lemma ConvertMeaning(frames: seq<seq<HoldPos.PosRecord>>, names: map<string, string>)
    requires frames != []
    ensures var all := HoldPos.Concat(frames);
      var symbols := HoldPos.SymbolsOf(all);
      |Convert(frames, names)| == |symbols| &&
      forall i :: 0 <= i < |symbols| ==>
        SymbolSheet(all, names, symbols[i]) == Some(Convert(frames, names)[i]) &&
        Convert(frames, names)[i].name == HoldPos.SheetName(names, symbols[i]) &&
        0 < |Convert(frames, names)[i].rows| <= HoldPos.MaxSeats
  {
    var all := HoldPos.Concat(frames);
    var symbols := HoldPos.SymbolsOf(all);
    var opts := SymbolSheets(all, names, symbols);
    forall i | 0 <= i < |symbols| ensures opts[i].Some? {
      assert symbols[i] in symbols;
      SymbolSheetPresent(all, names, symbols[i]);
    }
    PresentAll(opts);
    assert Convert(frames, names) == Present(opts);
  }

  /** The variety loop of `convert_to_exchange_format`. */
  method ConvertToExchangeFormat(frames: seq<seq<HoldPos.PosRecord>>, names: map<string, string>)
    returns (result: seq<HoldPos.ExchangeSheet>)
    ensures result == Convert(frames, names)
  {
    if frames == [] {
      return [];
    }
    var combined := HoldPos.Concat(frames);
    var symbols := HoldPos.SymbolsOf(combined);
    result := CollectSheets(combined, names, symbols);
  }

  method CollectSheets(combined: seq<HoldPos.PosRecord>, names: map<string, string>, symbols: seq<string>)
    returns (result: seq<HoldPos.ExchangeSheet>)
    ensures result == Present(SymbolSheets(combined, names, symbols))
  {
    ghost var opts := SymbolSheets(combined, names, symbols);
    result := [];
    var i := 0;
    while i < |symbols|
      invariant 0 <= i <= |symbols|
      invariant result == Present(opts[..i])
    {
      var sheet := SymbolSheet(combined, names, symbols[i]);
      PresentStep(opts, i, result, sheet);
      if sheet.Some? {
        result := result + [sheet.value];
      }
      i := i + 1;
    }
    assert opts[..i] == opts;
  }

  // ----- fetch_all_exchanges_data -----

  const Exchanges: seq<string> := ["大商所", "中金所", "郑商所", "上期所", "广期所"]

  function WorkbookFile(exchange: string): string { exchange + "持仓.xlsx" }

  /** What `fetch_exchange_data` gave for one exchange: it raised, or these sheets (possibly none). */
  datatype ExchangeOutcome = Failed | Converted(sheets: seq<HoldPos.ExchangeSheet>)

  predicate HasData(o: ExchangeOutcome) { o.Converted? && o.sheets != [] }

  /** Workbooks on disk by file name. */
  type Workbooks = map<string, seq<HoldPos.ExchangeSheet>>

  /** `save_to_excel` writes each sheet under its cleaned name. */
  function Cleaned(sheets: seq<HoldPos.ExchangeSheet>): (r: seq<HoldPos.ExchangeSheet>)
    ensures |r| == |sheets|
    ensures forall i :: 0 <= i < |sheets| ==> r[i] == HoldPos.ExchangeSheet(Sheets.CleanSheetName(sheets[i].name), sheets[i].rows)
  {
    if sheets == [] then [] else [HoldPos.ExchangeSheet(Sheets.CleanSheetName(sheets[0].name), sheets[0].rows)] + Cleaned(sheets[1..])
  }

  /** Exchanges among the first `n` with data. */
  function Successes(data: nat -> ExchangeOutcome, n: nat): (c: nat)
    ensures c <= n
  {
    if n == 0 then 0 else Successes(data, n - 1) + (if HasData(data(n - 1)) then 1 else 0)
  }

  /** The workbooks written for the first `n` exchanges; `written(i)` says whether writing exchange `i` succeeded. */
  function Written(data: nat -> ExchangeOutcome, written: nat -> bool, n: nat): Workbooks
    requires n <= |Exchanges|
  {
    if n == 0 then map[]
    else if HasData(data(n - 1)) && written(n - 1) then
      Written(data, written, n - 1)[WorkbookFile(Exchanges[n - 1]) := Cleaned(data(n - 1).sheets)]
    else Written(data, written, n - 1)
  }

  /**
   * `fetch_all_exchanges_data`: an exchange that raises is skipped, one with
   * sheets is saved and counted (a failed save is only reported, and still
   * counted); the result is whether at least three exchanges had data.
   */
  method FetchAllExchangesData(data: nat -> ExchangeOutcome, written: nat -> bool) returns (ok: bool, disk: Workbooks)
    ensures ok <==> Successes(data, |Exchanges|) >= 3
    ensures disk == Written(data, written, |Exchanges|)
  {
    var successCount := 0;
    disk := map[];
    var i := 0;
    while i < |Exchanges|
      invariant 0 <= i <= |Exchanges|
      invariant successCount == Successes(data, i)
      invariant disk == Written(data, written, i)
    {
      var outcome := data(i);
      if outcome.Converted? && outcome.sheets != [] {
        if written(i) {
          disk := disk[WorkbookFile(Exchanges[i]) := Cleaned(outcome.sheets)];
        }
        successCount := successCount + 1;
      }
      i := i + 1;
    }
    ok := successCount >= 3;
  }

  /** Success needs three exchanges with data: two are never enough, three always are. */
  lemma {:induction false} SuccessesCount(data: nat -> ExchangeOutcome, n: nat)
    ensures Successes(data, n) == |set i | 0 <= i < n && HasData(data(i))|
  {
    if n > 0 {
      SuccessesCount(data, n - 1);
      var p := (i: nat) => HasData(data(i));
      CountSnoc(p, n);
      assert (set i | 0 <= i < n && HasData(data(i))) == set i | 0 <= i < n && p(i);
      assert (set i | 0 <= i < n - 1 && HasData(data(i))) == set i | 0 <= i < n - 1 && p(i);
    }
  }

  /** Counting the indices below `n` that satisfy `p`, one index at a time. */
  lemma CountSnoc(p: nat -> bool, n: nat)
    requires n > 0
    ensures |set i | 0 <= i < n && p(i)| == |set i | 0 <= i < n - 1 && p(i)| + if p(n - 1) then 1 else 0
  {
    var prev := set i | 0 <= i < n - 1 && p(i);
    var now := set i | 0 <= i < n && p(i);
    if p(n - 1) {
      assert now == prev + {n - 1};
    } else {
      assert now == prev;
    }
  }

  /** A workbook is written only for an exchange with data whose write went through; it then holds the cleaned sheets. */
  lemma {:induction false} WrittenContents(data: nat -> ExchangeOutcome, written: nat -> bool, n: nat, i: nat)
    requires n <= |Exchanges| && i < |Exchanges|
    ensures WorkbookFile(Exchanges[i]) in Written(data, written, n) <==> i < n && HasData(data(i)) && written(i)
    ensures WorkbookFile(Exchanges[i]) in Written(data, written, n) ==>
      Written(data, written, n)[WorkbookFile(Exchanges[i])] == Cleaned(data(i).sheets)
  {
    if n > 0 {
      WrittenContents(data, written, n - 1, i);
      WorkbookFilesDistinct(i, n - 1);
    }
  }

  lemma WorkbookFilesDistinct(i: nat, j: nat)
    requires i < |Exchanges| && j < |Exchanges|
    ensures WorkbookFile(Exchanges[i]) == WorkbookFile(Exchanges[j]) <==> i == j
  {
    if i != j {
      assert WorkbookFile(Exchanges[i])[0] == Exchanges[i][0];
      assert WorkbookFile(Exchanges[j])[0] == Exchanges[j][0];
      assert WorkbookFile(Exchanges[i])[1] == Exchanges[i][1];
      assert WorkbookFile(Exchanges[j])[1] == Exchanges[j][1];
    }
  }
}
