/**
 * The helper functions of `utils.py`: identifier extraction, number
 * cleaning, safe arithmetic, top-N selection, seat-list validation, weekday
 * date ranges and the retry wrapper.
 */
module Utils {
  import opened Wrappers
  import Text
  import Sorting
  import Calendar
  import Position

  // ----- symbols and varieties -----

  /** The alphabetic characters of the text after the last `_`, upper-cased. */
  function SymbolPart(contract: string): (sym: string)
    ensures Text.AllAlpha(sym) && Text.NoLower(sym)
    ensures |sym| <= |contract|
  {
    var part := Text.AfterLast(contract, '_');
    Text.UpperKeepsAlpha(Text.AlphaOnly(part));
    Text.Upper(Text.AlphaOnly(part))
  }

  /** `extract_symbol_from_contract`: the symbol, or the contract itself when no letter is left. */
  function ExtractSymbolFromContract(contract: string): (r: string)
    ensures r == contract || (r != [] && Text.AllAlpha(r) && Text.NoLower(r))
    ensures r == contract <== SymbolPart(contract) == []
    ensures SymbolPart(contract) != [] ==> r == SymbolPart(contract)
  {
    var sym := SymbolPart(contract);
    if sym != [] then sym else contract
  }

  /** An exchange-prefixed code such as `SHFE_rb2501` yields its letters upper-cased. */
  lemma {:induction false} ExtractSymbolOfCode(prefix: string, letters: string, digits: string)
    requires letters != [] && Text.AllAlpha(letters) && Text.AllDigits(digits)
    requires '_' !in letters && '_' !in digits
    ensures ExtractSymbolFromContract(prefix + "_" + letters + digits) == Text.Upper(letters)
  {
    var c := prefix + "_" + letters + digits;
    var tail := letters + digits;
    assert c == (prefix + "_") + tail;
    AfterLastOfTail(prefix + "_", tail);
    AlphaOnlyOfLettersDigits(letters, digits);
  }

  lemma AfterLastOfTail(head: string, tail: string)
    requires head != [] && head[|head| - 1] == '_' && '_' !in tail
    ensures Text.AfterLast(head + tail, '_') == tail
  {
    var s := head + tail;
    var r := Text.AfterLast(s, '_');
    assert r == s[|s| - |tail|..] == tail;
  }

  lemma {:induction false} AlphaOnlyOfLettersDigits(letters: string, digits: string)
    requires Text.AllAlpha(letters) && Text.AllDigits(digits)
    ensures Text.AlphaOnly(letters + digits) == letters
    decreases |letters| + |digits|
  {
    if letters != [] {
      assert (letters + digits)[1..] == letters[1..] + digits;
      AlphaOnlyOfLettersDigits(letters[1..], digits);
      assert letters == [letters[0]] + letters[1..];
    } else if digits != [] {
      assert !Text.IsAlpha(digits[0]);
      assert ([] + digits)[1..] == [] + digits[1..];
      AlphaOnlyOfLettersDigits(letters, digits[1..]);
    }
  }

  /**
   * The symbol read one character at a time: `_` starts the part afresh, a
   * letter is appended upper-cased, anything else is skipped.
   */
  lemma SymbolPartSnoc(contract: string, x: char)
    ensures SymbolPart([]) == []
    ensures SymbolPart(contract + [x]) ==
      if x == '_' then [] else SymbolPart(contract) + (if Text.IsAlpha(x) then [Text.UpperChar(x)] else [])
  {
    var s := contract + [x];
    assert s[..|s| - 1] == contract;
    if x != '_' {
      var part := Text.AfterLast(contract, '_');
      assert Text.AfterLast(s, '_') == part + [x];
      Text.AlphaOnlyAppend(part, [x]);
      Text.AlphaOnlySingle(x);
      Text.UpperAppend(Text.AlphaOnly(part), Text.AlphaOnly([x]));
    }
  }

  /** Text without `_` is its own last part. */
  lemma AfterLastWithoutSep(s: string)
    requires '_' !in s
    ensures Text.AfterLast(s, '_') == s
  {
  }

  /**
   * After the last `_`, or in a contract without one, the symbol is the
   * letters of that part, in order, upper-cased.
   */
  lemma SymbolPartOfTail(head: string, tail: string)
    requires head == [] || head[|head| - 1] == '_'
    requires '_' !in tail
    ensures SymbolPart(head + tail) == Text.Upper(Text.AlphaOnly(tail))
  {
    if head == [] {
      assert head + tail == tail;
      AfterLastWithoutSep(tail);
    } else {
      AfterLastOfTail(head, tail);
    }
  }

  /** A bare code such as `rb2501` yields its letters upper-cased. */
  lemma ExtractSymbolOfBareCode(letters: string, digits: string)
    requires letters != [] && Text.AllAlpha(letters) && Text.AllDigits(digits)
    requires '_' !in letters && '_' !in digits
    ensures ExtractSymbolFromContract(letters + digits) == Text.Upper(letters)
  {
    assert [] + (letters + digits) == letters + digits;
    SymbolPartOfTail([], letters + digits);
    AlphaOnlyOfLettersDigits(letters, digits);
  }

  /** Extracting twice changes nothing. */
  lemma ExtractSymbolIdempotent(contract: string)
    ensures ExtractSymbolFromContract(ExtractSymbolFromContract(contract)) == ExtractSymbolFromContract(contract)
  {
    var r := ExtractSymbolFromContract(contract);
    if r != contract {
      assert '_' !in r;
      assert Text.AfterLast(r, '_') == r;
      Text.UpperIdempotent(r);
    }
  }

  /** Symbols of the Shanghai exchange, kept as they are after upper-casing. */
  const ShfeSymbols: seq<string> := ["cu", "al", "zn", "pb", "ni", "sn", "au", "ag", "rb", "wr", "hc", "ss", "fu", "bu", "ru", "nr", "sp", "lu", "bc", "ao", "ec"]

  /** Symbols of the Guangzhou exchange. */
  const GfexSymbols: seq<string> := ["si", "ps"]

  /** `extract_variety_from_contract`: the symbol with the `PTA`/`TA` special case; may be empty. */
  function ExtractVarietyFromContract(contract: string): (r: string)
  {
    var symbol := SymbolPart(contract);
    if symbol == "PTA" then "PTA"
    else if |symbol| >= 2 && symbol[..2] == "TA" && |symbol| > 2 then "TA"
    else if symbol == "OI" then "OI"
    else if Text.Lower(symbol) in ShfeSymbols then Text.Upper(symbol)
    else if Text.Lower(symbol) in GfexSymbols then Text.Upper(symbol)
    else symbol
  }

  /** Only the `TA` prefix changes the extracted symbol; every other branch returns it as it is. */
  lemma ExtractVarietyIsSymbolButTa(contract: string)
    ensures var symbol := SymbolPart(contract);
      ExtractVarietyFromContract(contract) ==
        if symbol != "PTA" && |symbol| > 2 && symbol[..2] == "TA" then "TA" else symbol
  {
    Text.UpperIdempotent(SymbolPart(contract));
  }

  /** The variety is always upper-case letters (possibly none), and agrees with the symbol when one exists. */
  lemma ExtractVarietyAgreesWithSymbol(contract: string)
    ensures var v := ExtractVarietyFromContract(contract);
      Text.AllAlpha(v) && Text.NoLower(v) &&
      (v != [] && v != "TA" ==> v == ExtractSymbolFromContract(contract))
  {
    ExtractVarietyIsSymbolButTa(contract);
  }

  // ----- numbers -----

  /** A Python value handed to `clean_numeric_string`. */
  datatype PyValue = PyInt(i: int) | PyFloat(f: real) | PyText(text: string)

  /** Digits with an optional fraction (`12`, `12.5`, `.5`, `12.`); at least one digit. */
  function Decimal(s: string): (r: Option<real>)
    ensures Text.AllDigits(s) && s != [] ==> r == Some(Text.DigitsValue(s) as real)
  {
    if Text.AllDigits(s) && s != [] then Some(Text.DigitsValue(s) as real) else FractionalDecimal(s)
  }

  /** The general case: digits around at most one point, at least one digit; `None` for anything else. */
  function FractionalDecimal(s: string): Option<real>
  {
    var k := if '.' in s then Position.FirstIndex(s, '.') else |s|;
    var ip := s[..k];
    var fp := if k < |s| then s[k + 1..] else [];
    if Text.AllDigits(ip) && Text.AllDigits(fp) && (ip != [] || fp != []) && (k < |s| ==> '.' !in fp) then
      Some(Text.DigitsValue(ip) as real + Text.DigitsValue(fp) as real / Pow10(|fp|) as real)
    else None
  }

  function Pow10(n: nat): (p: nat)
    ensures p >= 1
  {
    if n == 0 then 1 else 10 * Pow10(n - 1)
  }

  /** `float(s)` for plain decimal text with an optional sign. */
  function ParseFloat(s: string): Option<real>
  {
    if s != [] && s[0] == '-' then
      match Decimal(s[1..]) case Some(v) => Some(-v) case None => None
    else if s != [] && s[0] == '+' then Decimal(s[1..])
    else Decimal(s)
  }

  /** Text that `clean_numeric_string` treats as an empty cell. */
  const NullTexts: seq<string> := ["", "nan", "NaN", "None", "null"]

  /** `clean_numeric_string`: numbers pass through; text is cleaned and parsed, anything unparsable is 0. */
  function CleanNumericString(v: PyValue): (r: real)
    ensures v.PyInt? ==> r == v.i as real
    ensures v.PyFloat? ==> r == v.f
  {
    match v
    case PyInt(i) => i as real
    case PyFloat(f) => f
    case PyText(t) => TextValue(Text.Strip(Position.StripSeparators(t)))
  }

  /** The value of cleaned text: null text and unparsable text are 0. */
  function TextValue(cleaned: string): real
  {
    if cleaned in NullTexts then 0.0 else ParseFloat(cleaned).GetOr(0.0)
  }

  /** The text form of an integer cleans back to the integer. */
  lemma CleanNumericOfIntText(v: int)
    ensures CleanNumericString(PyText(Position.IntToString(v))) == v as real
  {
    var t := Position.IntToString(v);
    IntTextShape(v);
    NotNullText(t);
    CleanNumericOfPlainText(t);
    ParseFloatOfIntText(v);
  }

  /** Text without separators, padding or null spellings is parsed as it stands. */
  lemma CleanNumericOfPlainText(t: string)
    requires t != [] && ',' !in t && ' ' !in t && !Text.IsSpace(t[0]) && !Text.IsSpace(t[|t| - 1]) && t !in NullTexts
    ensures CleanNumericString(PyText(t)) == ParseFloat(t).GetOr(0.0)
  {
    assert Position.StripSeparators(t) == t;
    Text.StripUnchanged(t);
  }

  lemma IntTextShape(v: int)
    ensures var t := Position.IntToString(v);
      t != [] && ',' !in t && ' ' !in t && Text.IsAsciiDigit(t[|t| - 1]) && (t[0] == '-' || Text.IsAsciiDigit(t[0]))
  {
    var t := Position.IntToString(v);
    var n: nat := if v < 0 then -v else v;
    var digits := Text.NatToString(n);
    assert t == (if v < 0 then "-" else "") + digits;
    assert t[|t| - 1] == digits[|digits| - 1];
    assert forall i :: 0 <= i < |t| ==> t[i] == '-' || Text.IsAsciiDigit(t[i]);
  }

  lemma NotNullText(t: string)
    requires t != [] && Text.IsAsciiDigit(t[|t| - 1])
    ensures t !in NullTexts
  {
  }

  lemma ParseFloatOfIntText(v: int)
    ensures ParseFloat(Position.IntToString(v)) == Some(v as real)
  {
    var n: nat := if v < 0 then -v else v;
    var digits := Text.NatToString(n);
    Text.DigitsValueOfNatToString(n);
    assert Decimal(digits) == Some(n as real);
    if v < 0 {
      assert Position.IntToString(v)[1..] == digits;
    }
  }

  /** Blank and literal null text is 0. */
  lemma CleanNumericOfNullText(t: string)
    requires t in NullTexts
    ensures CleanNumericString(PyText(t)) == 0.0
  {
    assert ',' !in t && ' ' !in t;
    Text.StripUnchanged(t);
  }

  /** `safe_divide`: the default exactly when the denominator is 0, else the exact quotient. */
  function SafeDivide(numerator: real, denominator: real, default: real): (r: real)
    ensures denominator == 0.0 ==> r == default
    ensures denominator != 0.0 ==> r * denominator == numerator
  {
    if denominator == 0.0 then default else numerator / denominator
  }

  /** `calculate_percentage_change`: 0 from a zero base, else the change that turns `oldValue` into `newValue`. */
  function PercentageChange(oldValue: real, newValue: real): (pct: real)
    ensures oldValue == 0.0 ==> pct == 0.0
    ensures oldValue != 0.0 ==> oldValue + oldValue * pct / 100.0 == newValue
  {
    if oldValue == 0.0 then 0.0 else (newValue - oldValue) / oldValue * 100.0
  }

  // ----- top-N -----

  /** A record of `filter_top_n`'s list: field name to numeric value. */
  type Record = map<string, real>

  /** `x.get(key, 0)`. */
  function KeyOr0(key: string): Record -> real
  {
    (x: Record) => if key in x then x[key] else 0.0
  }

  /** `s[:n]` for any integer `n` (a negative `n` drops that many from the end). */
  function Slice<T>(s: seq<T>, n: int): (r: seq<T>)
    ensures r <= s
    ensures |r| == if n >= 0 then (if n < |s| then n else |s|) else (if |s| + n > 0 then |s| + n else 0)
  {
    if n >= 0 then Sorting.Take(s, n)
    else if |s| + n > 0 then s[..|s| + n]
    else []
  }

  function Order(reverse: bool): (real, real) -> bool
  {
    if reverse then Sorting.RealDesc else Sorting.RealAsc
  }

  /** `filter_top_n`: `sorted(data, key=..., reverse=reverse)[:n]`. */
  function FilterTopN(data: seq<Record>, key: string, n: int, reverse: bool): (r: seq<Record>)
    ensures multiset(r) <= multiset(data)
    ensures n >= 0 ==> |r| == if n < |data| then n else |data|
  {
    var sorted := Sorting.SortBy(data, KeyOr0(key), Order(reverse));
    var r := Slice(sorted, n);
    assert sorted == r + sorted[|r|..];
    assert multiset(sorted) == multiset(r) + multiset(sorted[|r|..]);
    r
  }

  /** The result is ordered by the key, and records with equal keys keep their input order. */
  lemma FilterTopNOrdered(data: seq<Record>, key: string, n: int, reverse: bool, k: real)
    ensures Sorting.SortedBy(FilterTopN(data, key, n, reverse), KeyOr0(key), Order(reverse))
    ensures Sorting.WithKey(FilterTopN(data, key, n, reverse), KeyOr0(key), k) <= Sorting.WithKey(data, KeyOr0(key), k)
  {
    var sorted := Sorting.SortBy(data, KeyOr0(key), Order(reverse));
    if reverse {
      Sorting.RealDescTotal();
    } else {
      Sorting.RealAscTotal();
    }
    Sorting.SortBySorted(data, KeyOr0(key), Order(reverse));
    Sorting.SortByStable(data, KeyOr0(key), Order(reverse), k);
    PrefixOfSorted(sorted, FilterTopN(data, key, n, reverse), KeyOr0(key), Order(reverse), k);
  }

  /**
   * The records kept are the top ones: every record of the input that is
   * dropped (counting repeats) ranks no higher than any record kept.
   */
  lemma FilterTopNKeepsTop(data: seq<Record>, key: string, n: int, reverse: bool)
    ensures var r := FilterTopN(data, key, n, reverse);
      forall x, y :: x in r && y in multiset(data) - multiset(r) ==> Order(reverse)(KeyOr0(key)(x), KeyOr0(key)(y))
  {
    var sorted := Sorting.SortBy(data, KeyOr0(key), Order(reverse));
    var r := FilterTopN(data, key, n, reverse);
    var dropped := sorted[|r|..];
    assert sorted == r + dropped;
    assert multiset(sorted) == multiset(r) + multiset(dropped);
    assert r == sorted[..|r|];
    if reverse {
      Sorting.RealDescTotal();
    } else {
      Sorting.RealAscTotal();
    }
    Sorting.SortBySorted(data, KeyOr0(key), Order(reverse));
    Sorting.SortedCut(sorted, KeyOr0(key), Order(reverse), |r|);
    forall x, y | x in r && y in multiset(data) - multiset(r)
      ensures Order(reverse)(KeyOr0(key)(x), KeyOr0(key)(y))
    {
      assert y in multiset(dropped);
    }
  }

  /** A prefix of a sorted list is sorted, and keeps a prefix of each key's records. */
  lemma PrefixOfSorted<T>(s: seq<T>, r: seq<T>, key: T -> real, before: (real, real) -> bool, k: real)
    requires r <= s && Sorting.SortedBy(s, key, before)
    ensures Sorting.SortedBy(r, key, before)
    ensures Sorting.WithKey(r, key, k) <= Sorting.WithKey(s, key, k)
  {
    assert s == r + s[|r|..];
    forall i, j | 0 <= i < j < |r| ensures before(key(r[i]), key(r[j])) {
      assert r[i] == s[i] && r[j] == s[j];
    }
    WithKeyAppend(r, s[|r|..], key, k);
  }

  lemma {:induction false} WithKeyAppend<T>(a: seq<T>, b: seq<T>, key: T -> real, k: real)
    ensures Sorting.WithKey(a + b, key, k) == Sorting.WithKey(a, key, k) + Sorting.WithKey(b, key, k)
  {
    if a != [] {
      assert (a + b)[1..] == a[1..] + b;
      WithKeyAppend(a[1..], b, key, k);
    } else {
      assert a + b == b;
    }
  }

  // ----- seat lists -----

  /** An element of the list given to `validate_retail_seats`. */
  datatype PyItem = StrItem(s: string) | OtherItem(id: int)

  /** The argument of `validate_retail_seats`: a list, or any other object. */
  datatype SeatsArg = ListArg(items: seq<PyItem>) | OtherArg

  function Elements<T(==)>(s: seq<T>): set<T>
  {
    set x | x in s
  }

  /** `len(s) == len(set(s))` holds exactly when no element repeats. */
  lemma {:induction false} SetSizeDistinct<T>(s: seq<T>)
    ensures |Elements(s)| <= |s|
    ensures |Elements(s)| == |s| <==> Sorting.Distinct(s)
  {
    if s != [] {
      var t := s[1..];
      SetSizeDistinct(t);
      assert Elements(s) == {s[0]} + Elements(t) by {
        assert s == [s[0]] + t;
      }
      if s[0] in t {
        assert Elements(s) == Elements(t);
        var j :| 0 <= j < |t| && t[j] == s[0];
        assert s[0] == s[j + 1];
      } else {
        assert |Elements(s)| == |Elements(t)| + 1;
        if Sorting.Distinct(s) {
          Sorting.DistinctTail(s);
        }
        if Sorting.Distinct(t) {
          Sorting.DistinctCons(s[0], t);
          assert [s[0]] + t == s;
        }
      }
    }
  }

  /** `len(x.strip()) > 0` for a string `x`: some character is not whitespace. */
  predicate HasText(x: string)
  {
    exists k :: 0 <= k < |x| && !Text.IsSpace(x[k])
  }

  predicate Named(x: PyItem) { x.StrItem? && |Text.Strip(x.s)| != 0 }

  lemma NamedHasText(x: PyItem)
    ensures Named(x) <==> x.StrItem? && HasText(x.s)
  {
    if x.StrItem? {
      Text.StripEmptyIff(x.s);
    }
  }

  function AllNamed(items: seq<PyItem>): (ok: bool)
    ensures ok <==> forall i :: 0 <= i < |items| ==> items[i].StrItem? && HasText(items[i].s)
  {
    if items == [] then true
    else
      NamedHasText(items[0]);
      Named(items[0]) && AllNamed(items[1..])
  }

  /** `validate_retail_seats`: a non-empty list of distinct strings, none of them blank. */
  function ValidateRetailSeats(seats: SeatsArg): (ok: bool)
    ensures ok <==> (seats.ListArg? && |seats.items| > 0 && Sorting.Distinct(seats.items) &&
      forall i :: 0 <= i < |seats.items| ==> seats.items[i].StrItem? && HasText(seats.items[i].s))
  {
    if !seats.ListArg? then false
    else if |seats.items| == 0 then false
    else
      SetSizeDistinct(seats.items);
      if |seats.items| != |Elements(seats.items)| then false
      else AllNamed(seats.items)
  }

  /** The default seat list is valid. */
  lemma DefaultSeatsValid()
    ensures ValidateRetailSeats(ListArg([StrItem(Position.DefaultRetailSeats[0]), StrItem(Position.DefaultRetailSeats[1]), StrItem(Position.DefaultRetailSeats[2])]))
  {
    var items := [StrItem(Position.DefaultRetailSeats[0]), StrItem(Position.DefaultRetailSeats[1]), StrItem(Position.DefaultRetailSeats[2])];
    assert !Text.IsSpace(items[0].s[0]) && !Text.IsSpace(items[1].s[0]) && !Text.IsSpace(items[2].s[0]);
    assert HasText(items[0].s) && HasText(items[1].s) && HasText(items[2].s);
  }

  // ----- trading dates -----

  /** Valid weekdays with ordinals in `[lo, hi]`, in strictly increasing order. */
  predicate Walk(r: seq<Calendar.Date>, lo: int, hi: int)
  {
    (forall i :: 0 <= i < |r| ==>
      Calendar.Valid(r[i]) && Calendar.Weekday(r[i]) < 5 && lo <= Calendar.Ordinal(r[i]) <= hi) &&
    (forall i, j :: 0 <= i < j < |r| ==> Calendar.Ordinal(r[i]) < Calendar.Ordinal(r[j]))
  }

  /** A walk from the next day on stays a walk with `d` put in front, if `d` is a weekday. */
  lemma WalkCons(d: Calendar.Date, rest: seq<Calendar.Date>, hi: int)
    requires Calendar.Valid(d) && Calendar.Ordinal(d) <= hi && Walk(rest, Calendar.Ordinal(d) + 1, hi)
    ensures Walk(rest, Calendar.Ordinal(d), hi)
    ensures Calendar.Weekday(d) < 5 ==> Walk([d] + rest, Calendar.Ordinal(d), hi)
  {
    if Calendar.Weekday(d) < 5 {
      var r := [d] + rest;
      assert forall i :: 0 < i < |r| ==> r[i] == rest[i - 1];
      forall i, j | 0 <= i < j < |r| ensures Calendar.Ordinal(r[i]) < Calendar.Ordinal(r[j]) {
        if i == 0 {
          assert Calendar.Ordinal(d) < Calendar.Ordinal(rest[j - 1]);
        }
      }
    }
  }

  /** The Monday-to-Friday dates from `d` through `e`: valid, in range and strictly increasing. */
  function WeekdaysFrom(d: Calendar.Date, e: Calendar.Date): (r: seq<Calendar.Date>)
    requires Calendar.Valid(d) && Calendar.Valid(e) && e != Calendar.LastDate
    ensures Walk(r, Calendar.Ordinal(d), Calendar.Ordinal(e))
    decreases Calendar.Ordinal(e) - Calendar.Ordinal(d)
  {
    if Calendar.Before(e, d) then []
    else
      Calendar.OrdinalOrder(d, e);
      var next := Calendar.NextDay(d);
      var rest := WeekdaysFrom(next, e);
      WalkCons(d, rest, Calendar.Ordinal(e));
      (if Calendar.Weekday(d) < 5 then [d] else []) + rest
  }

  function Formats(ds: seq<Calendar.Date>): (r: seq<string>)
    requires forall i :: 0 <= i < |ds| ==> Calendar.Valid(ds[i])
    ensures |r| == |ds| && forall i :: 0 <= i < |ds| ==> r[i] == Calendar.FormatYmd(ds[i])
  {
    if ds == [] then [] else [Calendar.FormatYmd(ds[0])] + Formats(ds[1..])
  }

  /** Every weekday within `[d, e]` is listed. */
  lemma {:induction false} WeekdaysFromComplete(d: Calendar.Date, e: Calendar.Date, x: Calendar.Date)
    requires Calendar.Valid(d) && Calendar.Valid(e) && e != Calendar.LastDate && Calendar.Valid(x)
    requires Calendar.Ordinal(d) <= Calendar.Ordinal(x) <= Calendar.Ordinal(e) && Calendar.Weekday(x) < 5
    ensures x in WeekdaysFrom(d, e)
    decreases Calendar.Ordinal(e) - Calendar.Ordinal(d)
  {
    Calendar.OrdinalOrder(d, e);
    Calendar.OrdinalOrder(d, x);
    if x != d {
      WeekdaysFromComplete(Calendar.NextDay(d), e, x);
    }
  }

  /** `get_trading_dates` as a value: `[]` when a date does not parse or when the walk would pass the last date. */
  function TradingDates(startDate: string, endDate: string): seq<string>
  {
    var s := Calendar.ParseYmd(startDate);
    var e := Calendar.ParseYmd(endDate);
    if s.None? || e.None? || e.value == Calendar.LastDate then []
    else
      Formats(WeekdaysFrom(s.value, e.value))
  }

  /** Each trading date is listed exactly once: formatted dates differ when the dates do. */
  lemma TradingDatesDistinct(startDate: string, endDate: string)
    ensures Sorting.Distinct(TradingDates(startDate, endDate))
  {
    var s := Calendar.ParseYmd(startDate);
    var e := Calendar.ParseYmd(endDate);
    if !(s.None? || e.None? || e.value == Calendar.LastDate) {
      var ds := WeekdaysFrom(s.value, e.value);
      var r := TradingDates(startDate, endDate);
      forall i, j | 0 <= i < j < |r| ensures r[i] != r[j] {
        Calendar.ParseFormatRoundTrip(ds[i]);
        Calendar.ParseFormatRoundTrip(ds[j]);
      }
    }
  }

  /** A weekday between two parsed dates (the end not being the last date) is listed. */
  lemma TradingDatesComplete(startDate: string, endDate: string, x: Calendar.Date)
    requires Calendar.ParseYmd(startDate).Some? && Calendar.ParseYmd(endDate).Some?
    requires Calendar.ParseYmd(endDate).value != Calendar.LastDate
    requires Calendar.Valid(x) && Calendar.Weekday(x) < 5
    requires Calendar.Ordinal(Calendar.ParseYmd(startDate).value) <= Calendar.Ordinal(x) <= Calendar.Ordinal(Calendar.ParseYmd(endDate).value)
    ensures Calendar.FormatYmd(x) in TradingDates(startDate, endDate)
  {
    var s := Calendar.ParseYmd(startDate).value;
    var e := Calendar.ParseYmd(endDate).value;
    WeekdaysFromComplete(s, e, x);
    var ds := WeekdaysFrom(s, e);
    var i :| 0 <= i < |ds| && ds[i] == x;
    assert TradingDates(startDate, endDate)[i] == Calendar.FormatYmd(x);
  }

  /** `get_trading_dates`: parses both dates, then walks from one to the other. */
  method GetTradingDates(startDate: string, endDate: string) returns (dates: seq<string>)
    ensures dates == TradingDates(startDate, endDate)
  {
    var s := Calendar.ParseYmd(startDate);
    var e := Calendar.ParseYmd(endDate);
    if s.None? || e.None? {
      return [];
    }
    var walked := WalkWeekdays(s.value, e.value);
    dates := walked.GetOr([]);
  }

  /**
   * The `while current <= end` loop: advances one day at a time, keeping
   * weekdays; `None` when stepping past the last date raises.
   */
  method WalkWeekdays(start: Calendar.Date, end: Calendar.Date) returns (dates: Option<seq<string>>)
    requires Calendar.Valid(start) && Calendar.Valid(end)
    ensures end == Calendar.LastDate ==> dates == None
    ensures end != Calendar.LastDate ==> dates == Some(Formats(WeekdaysFrom(start, end)))
  {
    var current := start;
    var collected := [];
    while !Calendar.Before(end, current)
      invariant Calendar.Valid(current)
      invariant end != Calendar.LastDate ==> Walked(start, current, end, collected)
      decreases Calendar.Ordinal(end) - Calendar.Ordinal(current)
    {
      ghost var before := collected;
      if Calendar.Weekday(current) < 5 {
        collected := collected + [Calendar.FormatYmd(current)];
      }
      if current == Calendar.LastDate {
        // `current + timedelta(days=1)` overflows.
        Calendar.NothingAfterLast(end);
        return None;
      }
      WalkTurn(start, current, end, before, collected);
      current := Calendar.NextDay(current);
    }
    Calendar.NothingAfterLast(current);
    WalkDone(start, current, end, collected);
    dates := Some(collected);
  }

  /** The dates collected so far followed by those still ahead make up the whole walk. */
  ghost predicate Walked(start: Calendar.Date, current: Calendar.Date, end: Calendar.Date, dates: seq<string>)
    requires Calendar.Valid(start) && Calendar.Valid(current) && Calendar.Valid(end) && end != Calendar.LastDate
  {
    dates + Formats(WeekdaysFrom(current, end)) == Formats(WeekdaysFrom(start, end))
  }

  lemma WalkStep(start: Calendar.Date, current: Calendar.Date, end: Calendar.Date, dates: seq<string>, after: seq<string>)
    requires Calendar.Valid(start) && Calendar.Valid(current) && Calendar.Valid(end) && end != Calendar.LastDate
    requires Walked(start, current, end, dates) && !Calendar.Before(end, current)
    requires after == dates + if Calendar.Weekday(current) < 5 then [Calendar.FormatYmd(current)] else []
    ensures current != Calendar.LastDate
    ensures Walked(start, Calendar.NextDay(current), end, after)
  {
    FormatsSplit(current, end);
    var x := if Calendar.Weekday(current) < 5 then [Calendar.FormatYmd(current)] else [];
    var ahead := Formats(WeekdaysFrom(Calendar.NextDay(current), end));
    Regroup(dates, x, ahead, Formats(WeekdaysFrom(start, end)));
  }

  /** One turn of the loop: the bound holds and the walk invariant carries over to the next day. */
  lemma WalkTurn(start: Calendar.Date, current: Calendar.Date, end: Calendar.Date, dates: seq<string>, after: seq<string>)
    requires Calendar.Valid(start) && Calendar.Valid(current) && Calendar.Valid(end)
    requires !Calendar.Before(end, current) && current != Calendar.LastDate
    requires end != Calendar.LastDate ==> Walked(start, current, end, dates)
    requires after == dates + if Calendar.Weekday(current) < 5 then [Calendar.FormatYmd(current)] else []
    ensures Calendar.Ordinal(current) <= Calendar.Ordinal(end)
    ensures end != Calendar.LastDate ==> Walked(start, Calendar.NextDay(current), end, after)
  {
    Calendar.OrdinalOrder(current, end);
    if end != Calendar.LastDate {
      WalkStep(start, current, end, dates, after);
    }
  }

  lemma WalkDone(start: Calendar.Date, current: Calendar.Date, end: Calendar.Date, dates: seq<string>)
    requires Calendar.Valid(start) && Calendar.Valid(current) && Calendar.Valid(end) && end != Calendar.LastDate
    requires Walked(start, current, end, dates) && Calendar.Before(end, current)
    ensures dates == Formats(WeekdaysFrom(start, end))
  {
  }

  lemma Regroup(a: seq<string>, b: seq<string>, c: seq<string>, whole: seq<string>)
    requires a + (b + c) == whole
    ensures (a + b) + c == whole
  {
  }

  lemma FormatsSplit(d: Calendar.Date, e: Calendar.Date)
    requires Calendar.Valid(d) && Calendar.Valid(e) && e != Calendar.LastDate && !Calendar.Before(e, d)
    ensures d != Calendar.LastDate
    ensures Formats(WeekdaysFrom(d, e)) ==
      (if Calendar.Weekday(d) < 5 then [Calendar.FormatYmd(d)] else []) + Formats(WeekdaysFrom(Calendar.NextDay(d), e))
  {
    Calendar.NothingAfterLast(e);
    var tail := WeekdaysFrom(Calendar.NextDay(d), e);
    FormatsAppend(if Calendar.Weekday(d) < 5 then [d] else [], tail);
  }

  lemma FormatsAppend(a: seq<Calendar.Date>, b: seq<Calendar.Date>)
    requires forall i :: 0 <= i < |a| ==> Calendar.Valid(a[i])
    requires forall i :: 0 <= i < |b| ==> Calendar.Valid(b[i])
    ensures Formats(a + b) == Formats(a) + Formats(b)
  {
  }

  // ----- retries -----

  /** The result of one call of the wrapped function. */
  datatype Attempt<T> = Success(value: T) | Failure(error: string)

  /** How `retry_on_failure`'s wrapper ends: a value, the last exception, or (no attempt at all) a `TypeError`. */
  datatype RetryOutcome<T> = Returned(value: T) | Reraised(error: string) | NothingToRaise

  /**
   * `retry_on_failure(func, max_retries, delay)` applied once; `call(k)` is
   * the k-th call's result and `sleeps` the pauses taken, in order.
   */
  method RetryOnFailure<T>(call: nat -> Attempt<T>, maxRetries: int, delay: real) returns (outcome: RetryOutcome<T>, attempts: nat, sleeps: seq<real>)
    ensures maxRetries <= 0 ==> outcome == NothingToRaise && attempts == 0
    ensures attempts <= (if maxRetries > 0 then maxRetries else 0)
    ensures forall k :: 0 <= k < attempts - 1 ==> call(k).Failure?
    ensures outcome.Returned? <==> attempts > 0 && call(attempts - 1).Success?
    ensures outcome.Returned? ==> outcome.value == call(attempts - 1).value
    ensures outcome.Reraised? ==> attempts == maxRetries && outcome.error == call(maxRetries - 1).error
    ensures maxRetries > 0 ==> !outcome.NothingToRaise?
    ensures |sleeps| == (if attempts > 0 then attempts - 1 else 0)
    ensures forall k :: 0 <= k < |sleeps| ==> sleeps[k] == delay
  {
    var lastError: Option<string> := None;
    var attempt := 0;
    sleeps := [];
    while attempt < maxRetries
      invariant attempt <= (if maxRetries > 0 then maxRetries else 0)
      invariant forall k :: 0 <= k < attempt ==> call(k).Failure?
      invariant lastError.Some? <==> attempt > 0
      invariant attempt > 0 ==> lastError.value == call(attempt - 1).error
      invariant |sleeps| == (if attempt > 0 && attempt == maxRetries then attempt - 1 else attempt)
      invariant forall k :: 0 <= k < |sleeps| ==> sleeps[k] == delay
    {
      match call(attempt) {
        case Success(v) =>
          return Returned(v), attempt + 1, sleeps;
        case Failure(msg) =>
          lastError := Some(msg);
          if attempt < maxRetries - 1 {
            sleeps := sleeps + [delay];
          }
      }
      attempt := attempt + 1;
    }
    attempts := attempt;
    if lastError.None? {
      // `raise None` is itself an error.
      outcome := NothingToRaise;
    } else {
      outcome := Reraised(lastError.value);
    }
  }
}
