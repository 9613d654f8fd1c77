/**
 * The seat-ranking records that both Sina-based fetchers read: one row per
 * member for a contract and a position type (volume, long or short
 * holdings), the exchange-workbook row they are converted to, and the
 * three-attempt download of one contract.
 */
module HoldPos {
  import opened Wrappers
  import Text
  import Sorting
  import Position

  /** `成交量`, `多单持仓`, `空单持仓`, requested in this order. */
  datatype PosType = Volume | LongHolding | ShortHolding

  const PositionTypes: seq<PosType> := [Volume, LongHolding, ShortHolding]

  /** One row as the remote table gives it: rank, member, amount (lots traded or held) and change. */
  datatype Holding = Holding(rank: int, member: string, amount: int, change: int)

  /** A row after the metadata columns are added: its position type and variety code. */
  datatype PosRecord = PosRecord(rank: int, member: string, amount: int, change: int, kind: PosType, symbol: string)

  /** One row of an exchange workbook: `排名, 会员简称, 成交量, 多单持仓, 多单变化, 空单持仓, 空单变化`. */
  datatype ExchangeRow = ExchangeRow(rank: int, member: string, volume: int, longPos: int, longChg: int, shortPos: int, shortChg: int)

  /** One sheet of an exchange workbook. */
  datatype ExchangeSheet = ExchangeSheet(name: string, rows: seq<ExchangeRow>)

  /** Rows kept per sheet (`head(20)`, `[:20]`). */
  const MaxSeats: nat := 20

  /** `df['position_type'] = ...; df['symbol'] = ...`. */
  function Stamp(hs: seq<Holding>, kind: PosType, symbol: string): (r: seq<PosRecord>)
    ensures |r| == |hs|
    ensures forall i :: 0 <= i < |hs| ==>
      r[i] == PosRecord(hs[i].rank, hs[i].member, hs[i].amount, hs[i].change, kind, symbol)
  {
    if hs == [] then []
    else [PosRecord(hs[0].rank, hs[0].member, hs[0].amount, hs[0].change, kind, symbol)] + Stamp(hs[1..], kind, symbol)
  }

  /** `pd.concat(all_data)`: the frames one after another. */
  function Concat(frames: seq<seq<PosRecord>>): (r: seq<PosRecord>)
    ensures forall x :: x in r <==> exists i :: 0 <= i < |frames| && x in frames[i]
  {
    if frames == [] then []
    else
      var init := frames[..|frames| - 1];
      var prev := Concat(init);
      assert forall i :: 0 <= i < |init| ==> init[i] == frames[i];
      prev + frames[|frames| - 1]
  }

  function SymbolColumn(rs: seq<PosRecord>): (c: seq<string>)
    ensures |c| == |rs| && forall i :: 0 <= i < |rs| ==> c[i] == rs[i].symbol
  {
    if rs == [] then [] else [rs[0].symbol] + SymbolColumn(rs[1..])
  }

  /** `combined_df['symbol'].unique()`. */
  function SymbolsOf(rs: seq<PosRecord>): (s: seq<string>)
    ensures Position.NoDuplicates(s)
    ensures forall x :: x in s <==> x in SymbolColumn(rs)
  {
    Position.Dedup(SymbolColumn(rs))
  }

  /** `df[df['symbol'] == symbol]`, order kept. */
  function OfSymbol(rs: seq<PosRecord>, symbol: string): (r: seq<PosRecord>)
    ensures forall x :: x in r <==> x in rs && x.symbol == symbol
  {
    if rs == [] then []
    else (if rs[0].symbol == symbol then [rs[0]] else []) + OfSymbol(rs[1..], symbol)
  }

  /** `df[df['position_type'] == kind]`, order kept. */
  function OfKind(rs: seq<PosRecord>, kind: PosType): (r: seq<PosRecord>)
    ensures forall x :: x in r <==> x in rs && x.kind == kind
  {
    if rs == [] then []
    else (if rs[0].kind == kind then [rs[0]] else []) + OfKind(rs[1..], kind)
  }

  /** `f"{symbol_names.get(symbol, symbol)}({symbol})"`. */
  function SheetName(names: map<string, string>, symbol: string): (s: string)
    ensures var shown := if symbol in names then names[symbol] else symbol;
      |s| == |shown| + |symbol| + 2 && s[..|shown|] == shown && s[|shown|] == '(' && s[|s| - 1] == ')'
    ensures s[|s| - |symbol| - 1..|s| - 1] == symbol
  {
    var s := (if symbol in names then names[symbol] else symbol) + "(" + symbol + ")";
    assert s[|s| - |symbol| - 1..|s| - 1] == symbol;
    s
  }

  // ----- fetch_single_contract_data -----

  /** One attempt: the call raised, gave no table or an empty one, or gave rows. */
  datatype CallOutcome = Raised | NoTable | Table(rows: seq<Holding>)

  predicate Got(o: CallOutcome) { o.Table? && o.rows != [] }

  /** Attempts per position type (`range(3)`). */
  const MaxAttempts: nat := 3

  /** The first attempt, from `k` on, that gives rows. */
  function FirstHit(call: (PosType, nat) -> CallOutcome, t: PosType, k: nat): (r: Option<nat>)
    ensures r.Some? ==> k <= r.value < MaxAttempts && Got(call(t, r.value))
    ensures r.Some? ==> forall j :: k <= j < r.value ==> !Got(call(t, j))
    ensures r.None? ==> forall j :: k <= j < MaxAttempts ==> !Got(call(t, j))
    decreases MaxAttempts - k
  {
    if k >= MaxAttempts then None
    else if Got(call(t, k)) then Some(k)
    else FirstHit(call, t, k + 1)
  }

  /** How many calls one position type costs: up to the first that gives rows, three at most. */
  function Attempts(call: (PosType, nat) -> CallOutcome, t: PosType): (n: nat)
    ensures 1 <= n <= MaxAttempts
  {
    match FirstHit(call, t, 0)
    case Some(k) => k + 1
    case None => MaxAttempts
  }

  /** The tables kept: for each position type the first non-empty answer, stamped. */
  function Collected(call: (PosType, nat) -> CallOutcome, symbol: string, ts: seq<PosType>): (m: map<PosType, seq<PosRecord>>)
    ensures forall t :: t in m <==> t in ts && FirstHit(call, t, 0).Some?
  {
    if ts == [] then map[]
    else
      var t := ts[|ts| - 1];
      var prev := Collected(call, symbol, ts[..|ts| - 1]);
      match FirstHit(call, t, 0)
      case Some(k) => prev[t := Stamp(call(t, k).rows, t, symbol)]
      case None => prev
  }

  /** Every kept table is the first non-empty answer of its type. */
  lemma {:induction false} CollectedValue(call: (PosType, nat) -> CallOutcome, symbol: string, ts: seq<PosType>, t: PosType)
    requires t in Collected(call, symbol, ts)
    ensures Collected(call, symbol, ts)[t] == Stamp(call(t, FirstHit(call, t, 0).value).rows, t, symbol)
  {
    var init := ts[..|ts| - 1];
    if ts[|ts| - 1] != t || FirstHit(call, ts[|ts| - 1], 0).None? {
      CollectedValue(call, symbol, init, t);
    }
  }

  /** The retry loop for one position type: stop at the first answer with rows. */
  method FetchType(call: (PosType, nat) -> CallOutcome, t: PosType) returns (got: Option<seq<Holding>>, attempts: nat)
    ensures attempts == Attempts(call, t)
    ensures got.Some? <==> FirstHit(call, t, 0).Some?
    ensures got.Some? ==> got.value == call(t, FirstHit(call, t, 0).value).rows
  {
    got := None;
    attempts := 0;
    var attempt := 0;
    while attempt < MaxAttempts
      invariant 0 <= attempt <= MaxAttempts
      invariant attempts == attempt && got == None
      invariant FirstHit(call, t, 0) == FirstHit(call, t, attempt)
    {
      var outcome := call(t, attempt);
      attempts := attempts + 1;
      if outcome.Table? && outcome.rows != [] {
        return Some(outcome.rows), attempts;
      }
      attempt := attempt + 1;
    }
  }

  /**
   * `fetch_single_contract_data`: each position type is asked at most three
   * times and the first non-empty answer is kept; the calls made per type
   * are returned alongside.
   */
  method FetchSingleContract(call: (PosType, nat) -> CallOutcome, symbol: string)
    returns (result: map<PosType, seq<PosRecord>>, attempts: seq<nat>)
    ensures result == Collected(call, symbol, PositionTypes)
    ensures |attempts| == |PositionTypes|
    ensures forall i :: 0 <= i < |PositionTypes| ==> attempts[i] == Attempts(call, PositionTypes[i]) <= MaxAttempts
  {
    result := map[];
    attempts := [];
    var i := 0;
    while i < |PositionTypes|
      invariant 0 <= i <= |PositionTypes|
      invariant result == Collected(call, symbol, PositionTypes[..i])
      invariant |attempts| == i
      invariant forall j :: 0 <= j < i ==> attempts[j] == Attempts(call, PositionTypes[j])
    {
      var t := PositionTypes[i];
      var got, n := FetchType(call, t);
      CollectedStep(call, symbol, PositionTypes, i, result, got);
      if got.Some? {
        result := result[t := Stamp(got.value, t, symbol)];
      }
      attempts := attempts + [n];
      i := i + 1;
    }
    assert PositionTypes[..i] == PositionTypes;
  }

  /** One more position type adds its table, if one was found, to those kept so far. */
  lemma CollectedStep(call: (PosType, nat) -> CallOutcome, symbol: string, ts: seq<PosType>, i: nat,
                      prev: map<PosType, seq<PosRecord>>, got: Option<seq<Holding>>)
    requires i < |ts| && prev == Collected(call, symbol, ts[..i])
    requires got.Some? <==> FirstHit(call, ts[i], 0).Some?
    requires got.Some? ==> got.value == call(ts[i], FirstHit(call, ts[i], 0).value).rows
    ensures Collected(call, symbol, ts[..i + 1]) == if got.Some? then prev[ts[i] := Stamp(got.value, ts[i], symbol)] else prev
  {
    assert ts[..i + 1][..i] == ts[..i];
  }

  // ----- lookups by member -----

  /** The first row of `member` (`iloc[0]`). */
  function FirstOf(rs: seq<PosRecord>, member: string): (r: Option<PosRecord>)
    ensures r.Some? ==> r.value in rs && r.value.member == member
    ensures r.None? <==> forall x :: x in rs ==> x.member != member
  {
    if rs == [] then None
    else if rs[0].member == member then Some(rs[0])
    else FirstOf(rs[1..], member)
  }

  /** The row of `member` a `dict(zip(...))` keeps: the last one. */
  function LastOf(rs: seq<PosRecord>, member: string): (r: Option<PosRecord>)
    ensures r.Some? ==> r.value in rs && r.value.member == member
    ensures r.None? <==> forall x :: x in rs ==> x.member != member
  {
    if rs == [] then None
    else if rs[|rs| - 1].member == member then Some(rs[|rs| - 1])
    else
      assert forall x :: x in rs[..|rs| - 1] ==> x in rs;
      assert forall x :: x in rs ==> x in rs[..|rs| - 1] || x == rs[|rs| - 1];
      LastOf(rs[..|rs| - 1], member)
  }

  /** `iloc[0]`: the row found is the member's first; there is none exactly when no row is the member's. */
  lemma {:induction false} FirstOfMeaning(rs: seq<PosRecord>, member: string)
    ensures FirstOf(rs, member).Some? ==>
      (exists i :: 0 <= i < |rs| && rs[i] == FirstOf(rs, member).value && rs[i].member == member &&
         (forall j :: 0 <= j < i ==> rs[j].member != member))
    ensures FirstOf(rs, member).None? <==> forall j :: 0 <= j < |rs| ==> rs[j].member != member
  {
    if rs != [] && rs[0].member != member {
      var tail := rs[1..];
      FirstOfMeaning(tail, member);
      assert FirstOf(rs, member) == FirstOf(tail, member);
      if FirstOf(tail, member).Some? {
        var i :| 0 <= i < |tail| && tail[i] == FirstOf(tail, member).value &&
          tail[i].member == member && forall j :: 0 <= j < i ==> tail[j].member != member;
        assert rs[i + 1] == tail[i];
        forall j | 0 <= j < i + 1 ensures rs[j].member != member {
          if j > 0 {
            assert rs[j] == tail[j - 1];
          }
        }
      } else {
        forall j | 0 <= j < |rs| ensures rs[j].member != member {
          if j > 0 {
            assert rs[j] == tail[j - 1];
          }
        }
      }
    }
  }

  /** `dict(zip(...))`: the row kept is the member's last; there is none exactly when no row is the member's. */
  lemma {:induction false} LastOfMeaning(rs: seq<PosRecord>, member: string)
    ensures LastOf(rs, member).Some? ==>
      (exists i :: 0 <= i < |rs| && rs[i] == LastOf(rs, member).value && rs[i].member == member &&
         (forall j :: i < j < |rs| ==> rs[j].member != member))
    ensures LastOf(rs, member).None? <==> forall j :: 0 <= j < |rs| ==> rs[j].member != member
  {
    if rs != [] && rs[|rs| - 1].member != member {
      var init := rs[..|rs| - 1];
      LastOfMeaning(init, member);
      assert LastOf(rs, member) == LastOf(init, member);
      if LastOf(init, member).Some? {
        var i :| 0 <= i < |init| && init[i] == LastOf(init, member).value &&
          init[i].member == member && forall j :: i < j < |init| ==> init[j].member != member;
        assert rs[i] == init[i];
        forall j | i < j < |rs| ensures rs[j].member != member {
          if j < |init| {
            assert rs[j] == init[j];
          }
        }
      } else {
        forall j | 0 <= j < |rs| ensures rs[j].member != member {
          if j < |init| {
            assert rs[j] == init[j];
          }
        }
      }
    }
  }

  /** The amount of a member's row, 0 when it has none. */
  function AmountOr0(r: Option<PosRecord>): int { if r.Some? then r.value.amount else 0 }
  function ChangeOr0(r: Option<PosRecord>): int { if r.Some? then r.value.change else 0 }
}
