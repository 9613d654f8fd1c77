/**
 * Strategy verdicts and the signal lists built from them: per strategy, the
 * bullish and bearish contracts ordered by strength, and the resonance tally
 * that counts how often a variety code is mentioned across strategies.
 */
module Signals {
  import opened Sorting

  /** 看多 (bullish), 看空 (bearish), 中性 (neutral) and 错误 (error). */
  datatype Direction = Bullish | Bearish | Neutral | Failed

  /** A strategy's answer for one contract; the explanatory text is not modelled. */
  datatype Verdict = Verdict(direction: Direction, strength: real)

  /** One contract in a strategy's bullish or bearish list. */
  datatype SignalEntry = SignalEntry(contract: string, strength: real)

  function Strength(e: SignalEntry): real { e.strength }

  /** `list.sort(key=lambda x: x['strength'], reverse=True)`. */
  function ByStrength(s: seq<SignalEntry>): seq<SignalEntry>
  {
    SortBy(s, Strength, RealDesc)
  }

  /** Sorting by strength keeps every entry, orders them non-increasingly and keeps entries of equal strength in their input order. */
  lemma ByStrengthOrdered(s: seq<SignalEntry>)
    ensures multiset(ByStrength(s)) == multiset(s)
    ensures forall i, j :: 0 <= i < j < |ByStrength(s)| ==> ByStrength(s)[i].strength >= ByStrength(s)[j].strength
    ensures forall k :: WithKey(ByStrength(s), Strength, k) == WithKey(s, Strength, k)
  {
    RealDescTotal();
    SortBySorted(s, Strength, RealDesc);
    forall k ensures WithKey(ByStrength(s), Strength, k) == WithKey(s, Strength, k) {
      SortByStable(s, Strength, RealDesc, k);
    }
  }

  /** One strategy's bullish and bearish lists. */
  datatype StrategySignals = StrategySignals(name: string, long: seq<SignalEntry>, short: seq<SignalEntry>)

  /** Only the first ten signals of a list take part in resonance. */
  const TopCount: nat := 10

  /** One mention of a variety code by a strategy, with the contracts it records. */
  datatype Mention = Mention(symbol: string, strategy: string, contracts: seq<string>)

  /** What the tally keeps per code: `count`, `strategies` and `contracts`. */
  datatype Resonance = Resonance(count: nat, strategies: seq<string>, contracts: seq<string>)

  /** Registering one mention: create the entry if needed, then count it. */
  function Bump(m: map<string, Resonance>, e: Mention): (r: map<string, Resonance>)
  {
    var prev := if e.symbol in m then m[e.symbol] else Resonance(0, [], []);
    m[e.symbol := Resonance(prev.count + 1, prev.strategies + [e.strategy], prev.contracts + e.contracts)]
  }

  /** The tally after registering the mentions in order. */
  function Tally(es: seq<Mention>): map<string, Resonance>
  {
    if es == [] then map[] else Bump(Tally(es[..|es| - 1]), es[|es| - 1])
  }

  /** Every entry of a tally counts one strategy per mention. */
  lemma {:induction false} TallyWellFormed(es: seq<Mention>)
    ensures forall s :: s in Tally(es) ==> Tally(es)[s].count == |Tally(es)[s].strategies|
  {
    if es != [] {
      TallyWellFormed(es[..|es| - 1]);
    }
  }

  /** Registering one more mention bumps the tally of the earlier ones. */
  lemma TallySnoc(es: seq<Mention>, e: Mention)
    ensures Tally(es + [e]) == Bump(Tally(es), e)
  {
    assert (es + [e])[..|es|] == es;
  }

  /** How many of the mentions name `symbol`. */
  function Occurrences(es: seq<Mention>, symbol: string): nat
  {
    if es == [] then 0
    else Occurrences(es[..|es| - 1], symbol) + (if es[|es| - 1].symbol == symbol then 1 else 0)
  }

  /** The strategies of the mentions that name `symbol`, in order. */
  function StrategiesNaming(es: seq<Mention>, symbol: string): seq<string>
  {
    if es == [] then []
    else StrategiesNaming(es[..|es| - 1], symbol) + (if es[|es| - 1].symbol == symbol then [es[|es| - 1].strategy] else [])
  }

  /** The tally's entry for a code is exactly the mentions of that code. */
  lemma {:induction false} TallyCounts(es: seq<Mention>, symbol: string)
    ensures symbol in Tally(es) <==> Occurrences(es, symbol) > 0
    ensures symbol in Tally(es) ==>
      Tally(es)[symbol].count == Occurrences(es, symbol) &&
      Tally(es)[symbol].strategies == StrategiesNaming(es, symbol)
    ensures symbol !in Tally(es) ==> StrategiesNaming(es, symbol) == []
  {
    if es != [] {
      TallyCounts(es[..|es| - 1], symbol);
    }
  }

  /** Codes mentioned at least twice (`count >= 2`). */
  function Resonant(m: map<string, Resonance>): (r: map<string, Resonance>)
    ensures forall s :: s in r <==> s in m && m[s].count >= 2
    ensures forall s :: s in r ==> r[s] == m[s]
  {
    map s | s in m && m[s].count >= 2 :: m[s]
  }

  /** A code is reported exactly when it is mentioned at least twice. */
  lemma ResonantIff(es: seq<Mention>, symbol: string)
    ensures symbol in Resonant(Tally(es)) <==> Occurrences(es, symbol) >= 2
  {
    TallyCounts(es, symbol);
  }

  lemma {:induction false} OccurrencesAppend(a: seq<Mention>, b: seq<Mention>, symbol: string)
    ensures Occurrences(a + b, symbol) == Occurrences(a, symbol) + Occurrences(b, symbol)
    decreases |b|
  {
    if b == [] {
      assert a + b == a;
    } else {
      assert (a + b)[..|a + b| - 1] == a + b[..|b| - 1];
      assert (a + b)[|a + b| - 1] == b[|b| - 1];
      OccurrencesAppend(a, b[..|b| - 1], symbol);
    }
  }

  /** `sum(xs)` over reals. */
  function RealSum(xs: seq<real>): real
  {
    if xs == [] then 0.0 else RealSum(xs[..|xs| - 1]) + xs[|xs| - 1]
  }

  /** `np.mean(xs)` of a non-empty list. */
  function Mean(xs: seq<real>): real
    requires |xs| > 0
  {
    RealSum(xs) / |xs| as real
  }

  lemma {:induction false} RealSumBound(xs: seq<real>, lo: real, hi: real)
    requires forall i :: 0 <= i < |xs| ==> lo <= xs[i] <= hi
    ensures |xs| as real * lo <= RealSum(xs) <= |xs| as real * hi
  {
    if xs != [] {
      RealSumBound(xs[..|xs| - 1], lo, hi);
    }
  }

  /** A mean lies within any bounds its values lie within. */
  lemma MeanBound(xs: seq<real>, lo: real, hi: real)
    requires |xs| > 0
    requires forall i :: 0 <= i < |xs| ==> lo <= xs[i] <= hi
    ensures lo <= Mean(xs) <= hi
  {
    RealSumBound(xs, lo, hi);
    var n := |xs| as real;
    var m := Mean(xs);
    assert m * n == RealSum(xs);
  }
}
