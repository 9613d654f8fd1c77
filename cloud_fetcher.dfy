/**
 * The cloud position fetcher (`cloud_data_fetcher.py`): a remote call retried
 * with growing pauses, and the two five-exchange download loops, one with a
 * reduced retry budget for the Guangzhou exchange and one that skips it,
 * leaving a placeholder workbook, when its call hangs or fails.
 *
 * Remote calls are oracles indexed by exchange and attempt, file writes are
 * oracles indexed by exchange, and the pauses taken are returned as a list
 * of seconds instead of being slept.
 */
module CloudFetcher {
  import opened Wrappers
  import Text
  import Position
  import Sheets
  import IntegratedFetcher

  /** What one call of the remote function did: returned a value (`None` or a table map), timed out, or raised. */
  datatype CallResult = Returned(value: Option<seq<Sheets.Sheet>>) | TimedOut | Raised(message: string)

  /** The exchanges are those of `IntegratedFetcher.Exchanges`, in the same order; the Guangzhou exchange is last. */
  const ExchangeCount: nat := 5
  const Gfex: nat := 4

  /** Retry budgets while the Guangzhou exchange is asked. */
  const GfexFallbackRetries: nat := 2
  const GfexAutoSkipRetries: nat := 1

  function File(i: nat): string
    requires i < ExchangeCount
  {
    IntegratedFetcher.WorkbookFile(IntegratedFetcher.Exchanges[i])
  }

  // ----- safe_akshare_call -----

  /** The extra pause after an exception, chosen by the first phrase its lowered message contains. */
  function ExtraWaits(message: string): (w: seq<nat>)
    ensures |w| <= 1
  {
    var m := Text.Lower(message);
    if Text.Contains(m, "timeout") then [5]
    else if Text.Contains(m, "rate limit") then [10]
    else if Text.Contains(m, "connection") then [3]
    else []
  }

  /** `timeout` wins over `rate limit`, which wins over `connection`; a message with none of them adds no pause. */
  lemma ExtraWaitsMeaning(message: string)
    ensures var m := Text.Lower(message);
      (ExtraWaits(message) == [5] <==> Text.Contains(m, "timeout")) &&
      (ExtraWaits(message) == [10] <==> !Text.Contains(m, "timeout") && Text.Contains(m, "rate limit")) &&
      (ExtraWaits(message) == [3] <==>
        !Text.Contains(m, "timeout") && !Text.Contains(m, "rate limit") && Text.Contains(m, "connection")) &&
      (ExtraWaits(message) == [] <==>
        !Text.Contains(m, "timeout") && !Text.Contains(m, "rate limit") && !Text.Contains(m, "connection"))
  {
  }

  predicate Answered(r: CallResult) { r.Returned? && r.value.Some? }

  /** The first attempt from `k` on, below `n`, that returned a value other than `None`. */
  function FirstAnswer(call: nat -> CallResult, n: nat, k: nat): (r: Option<nat>)
    ensures r.Some? ==> k <= r.value < n && Answered(call(r.value))
    ensures r.Some? ==> forall j :: k <= j < r.value ==> !Answered(call(j))
    ensures r.None? ==> forall j :: k <= j < n ==> !Answered(call(j))
    decreases n - k
  {
    if k >= n then None
    else if Answered(call(k)) then Some(k)
    else FirstAnswer(call, n, k + 1)
  }

  /** The calls made with a budget of `n`: up to and including the first answer. */
  function Calls(call: nat -> CallResult, n: nat): (c: nat)
    ensures c <= n
    ensures n > 0 ==> c >= 1
  {
    match FirstAnswer(call, n, 0)
    case Some(k) => k + 1
    case None => n
  }

  /** What `safe_akshare_call` returns with a budget of `n`. */
  function SafeResult(call: nat -> CallResult, n: nat): (r: Option<seq<Sheets.Sheet>>)
    ensures r.Some? <==> exists j :: 0 <= j < n && Answered(call(j))
  {
    match FirstAnswer(call, n, 0)
    case Some(k) => call(k).value
    case None => None
  }

  /** The pauses around attempt `k`: `delay * k` before it (none before the first), the extra pause after an exception. */
  function AttemptWaits(call: nat -> CallResult, delay: nat, k: nat): seq<nat>
  {
    (if k > 0 then [delay * k] else []) + (if call(k).Raised? then ExtraWaits(call(k).message) else [])
  }

  /** The pauses of the first `m` attempts, in order. */
  function Waits(call: nat -> CallResult, delay: nat, m: nat): (w: seq<nat>)
    ensures |w| <= 2 * m
  {
    if m == 0 then [] else Waits(call, delay, m - 1) + AttemptWaits(call, delay, m - 1)
  }

  /** Without exceptions the pauses are `delay`, `2 * delay`, ... one fewer than the calls. */
  lemma {:induction false} WaitsWithoutErrors(call: nat -> CallResult, delay: nat, m: nat)
    requires m > 0
    requires forall k :: 0 <= k < m ==> !call(k).Raised?
    ensures |Waits(call, delay, m)| == m - 1
    ensures forall i :: 0 <= i < m - 1 ==> Waits(call, delay, m)[i] == delay * (i + 1)
  {
    if m > 1 {
      WaitsWithoutErrors(call, delay, m - 1);
      assert AttemptWaits(call, delay, m - 1) == [delay * (m - 1)];
    } else {
      assert AttemptWaits(call, delay, 0) == [];
    }
  }

  /** The answer is the first non-`None` value; every attempt before it was a miss, and nothing later is asked. */
  lemma SafeResultMeaning(call: nat -> CallResult, n: nat)
    ensures SafeResult(call, n).Some? ==>
      var k := Calls(call, n) - 1;
      Answered(call(k)) && SafeResult(call, n) == call(k).value &&
      forall j :: 0 <= j < k ==> !Answered(call(j))
    ensures SafeResult(call, n).None? ==> Calls(call, n) == n
  {
  }

  // ----- the fetcher object -----

  /** One exchange's turn in a download loop: whether it counts, the workbook written for it, the pauses. */
  datatype Turn = Turn(saved: bool, workbook: Option<seq<Sheets.Sheet>>, waits: seq<nat>)

  /** Where a loop over the exchanges stands: exchanges saved, workbooks written, pauses taken. */
  datatype RunState = RunState(saved: nat, disk: Sheets.Sink, waits: seq<nat>)

  /** The effect of the turns taken, one exchange after another. */
  function Run(turns: seq<Turn>): (r: RunState)
    requires |turns| <= ExchangeCount
    ensures r.saved <= |turns|
  {
    if turns == [] then RunState(0, map[], [])
    else
      var prev := Run(turns[..|turns| - 1]);
      var t := turns[|turns| - 1];
      RunState(prev.saved + (if t.saved then 1 else 0),
        if t.workbook.Some? then prev.disk[File(|turns| - 1) := t.workbook.value] else prev.disk,
        prev.waits + t.waits)
  }

  lemma RunStep(turns: seq<Turn>, i: nat)
    requires i < |turns| <= ExchangeCount
    ensures var prev := Run(turns[..i]);
      Run(turns[..i + 1]) == RunState(prev.saved + (if turns[i].saved then 1 else 0),
        if turns[i].workbook.Some? then prev.disk[File(i) := turns[i].workbook.value] else prev.disk,
        prev.waits + turns[i].waits)
  {
    assert turns[..i + 1][..i] == turns[..i];
  }

  /** One more turn adds its own index to the saved ones when it saved. */
  lemma SavedSnoc(turns: seq<Turn>)
    requires turns != []
    ensures var n := |turns| - 1;
      |set i | 0 <= i < |turns| && turns[i].saved|
      == |set i | 0 <= i < n && turns[..n][i].saved| + if turns[n].saved then 1 else 0
  {
    var n := |turns| - 1;
    var p := (i: nat) => i < |turns| && turns[i].saved;
    IntegratedFetcher.CountSnoc(p, |turns|);
    assert (set i | 0 <= i < |turns| && turns[i].saved) == set i | 0 <= i < |turns| && p(i);
    assert (set i | 0 <= i < n && turns[..n][i].saved) == set i | 0 <= i < n && p(i);
  }

  /** The count is the number of exchanges that saved data. */
  lemma {:induction false} RunSavedCount(turns: seq<Turn>)
    requires |turns| <= ExchangeCount
    ensures Run(turns).saved == |set i | 0 <= i < |turns| && turns[i].saved|
  {
    if turns != [] {
      var n := |turns| - 1;
      RunSavedCount(turns[..n]);
      SavedSnoc(turns);
      assert Run(turns).saved == Run(turns[..n]).saved + if turns[n].saved then 1 else 0;
    }
  }

  /** The count is the number of exchanges that saved data; the loop succeeds iff there is one. */
  lemma RunSaved(turns: seq<Turn>)
    requires |turns| <= ExchangeCount
    ensures Run(turns).saved == |set i | 0 <= i < |turns| && turns[i].saved|
    ensures Run(turns).saved >= 1 <==> exists i :: 0 <= i < |turns| && turns[i].saved
  {
    RunSavedCount(turns);
    var now := set i | 0 <= i < |turns| && turns[i].saved;
    if exists i :: 0 <= i < |turns| && turns[i].saved {
      var i :| 0 <= i < |turns| && turns[i].saved;
      assert i in now;
    } else {
      assert now == {};
    }
  }

  /** An exchange's workbook is on disk iff its turn wrote one, and it holds what that turn wrote. */
  lemma {:induction false} RunDisk(turns: seq<Turn>, i: nat)
    requires |turns| <= ExchangeCount && i < ExchangeCount
    ensures File(i) in Run(turns).disk <==> i < |turns| && turns[i].workbook.Some?
    ensures File(i) in Run(turns).disk ==> Run(turns).disk[File(i)] == turns[i].workbook.value
  {
    if turns != [] {
      var init := turns[..|turns| - 1];
      RunDisk(init, i);
      IntegratedFetcher.WorkbookFilesDistinct(i, |turns| - 1);
      if i < |init| {
        assert init[i] == turns[i];
      }
    }
  }

  /** The placeholder workbook: one sheet `跳过说明` with one `说明` cell. */
  function Placeholder(note: string): seq<Sheets.Sheet>
  {
    [Sheets.Sheet("跳过说明", Position.RawTable([Position.Column("说明", [note])], 1))]
  }

  const TimeoutNote: string := "广期所数据获取超时，已自动跳过"

  function FailureNote(message: string): string { "广期所数据获取失败: " + message }

  /** How the thread that asks the Guangzhou exchange ended when the skip loop stopped waiting for it. */
  datatype ThreadOutcome = Finished | StillRunning | NoResult | Failed(message: string)

  /**
   * One exchange of `fetch_position_data_with_fallback`: asked with `retries`
   * attempts (two for the Guangzhou exchange); a non-empty answer is written,
   * and counted once the write went through; a write that raises skips the
   * pause; the pause is `delay`, doubled after the Guangzhou exchange.
   */
  function FallbackTurn(call: (nat, nat) -> CallResult, write: nat -> Option<string>, retries: nat, delay: nat, i: nat): Turn
  {
    var ask := (k: nat) => call(i, k);
    var n := if i == Gfex then GfexFallbackRetries else retries;
    var data := SafeResult(ask, n);
    var waits := Waits(ask, delay, Calls(ask, n));
    var pause := if i == Gfex then 2 * delay else delay;
    if data.Some? && data.value != [] then
      if write(i).None? then Turn(true, Some(Sheets.CleanSheets(data.value)), waits + [pause])
      else Turn(false, None, waits)
    else Turn(false, None, waits + [pause])
  }

  function FallbackTurns(call: (nat, nat) -> CallResult, write: nat -> Option<string>, retries: nat, delay: nat): (ts: seq<Turn>)
    ensures |ts| == ExchangeCount
    ensures forall i :: 0 <= i < ExchangeCount ==> ts[i] == FallbackTurn(call, write, retries, delay, i)
  {
    seq(ExchangeCount, i requires 0 <= i < ExchangeCount => FallbackTurn(call, write, retries, delay, i))
  }

  /** In the fallback loop an exchange counts exactly when it answered with tables and its workbook was written. */
  lemma FallbackTurnMeaning(call: (nat, nat) -> CallResult, write: nat -> Option<string>, retries: nat, delay: nat, i: nat)
    ensures var t := FallbackTurn(call, write, retries, delay, i);
      var ask := (k: nat) => call(i, k);
      var n := if i == Gfex then GfexFallbackRetries else retries;
      (t.saved <==> SafeResult(ask, n).Some? && SafeResult(ask, n).value != [] && write(i).None?) &&
      (t.workbook.Some? <==> t.saved) &&
      (t.saved ==> t.workbook.value == Sheets.CleanSheets(SafeResult(ask, n).value)) &&
      Calls(ask, n) <= n
  {
  }

  /**
   * One exchange of `fetch_position_data_with_auto_skip`. The Guangzhou
   * exchange is asked once, in a thread: if the thread is still running or
   * raised, a placeholder workbook is written, nothing is counted and there
   * is no pause; if it gave no result the exchange is skipped. Otherwise, as
   * for the other exchanges, a non-empty answer is written and counted; a
   * write that raises skips the pause and, for the Guangzhou exchange,
   * leaves a placeholder.
   */
  function AutoSkipTurn(call: (nat, nat) -> CallResult, write: nat -> Option<string>, thread: ThreadOutcome,
    retries: nat, delay: nat, i: nat): Turn
  {
    var ask := (k: nat) => call(i, k);
    if i == Gfex && thread.StillRunning? then Turn(false, Some(Placeholder(TimeoutNote)), [])
    else if i == Gfex && thread.NoResult? then Turn(false, None, [])
    else if i == Gfex && thread.Failed? then Turn(false, Some(Placeholder(FailureNote(thread.message))), [])
    else
      var n := if i == Gfex then GfexAutoSkipRetries else retries;
      var data := SafeResult(ask, n);
      var waits := Waits(ask, delay, Calls(ask, n));
      if data.Some? && data.value != [] then
        if write(i).None? then Turn(true, Some(Sheets.CleanSheets(data.value)), waits + [delay])
        else if i == Gfex then Turn(false, Some(Placeholder(FailureNote(write(i).value))), waits)
        else Turn(false, None, waits)
      else Turn(false, None, waits + [delay])
  }

  function AutoSkipTurns(call: (nat, nat) -> CallResult, write: nat -> Option<string>, thread: ThreadOutcome,
    retries: nat, delay: nat): (ts: seq<Turn>)
    ensures |ts| == ExchangeCount
    ensures forall i :: 0 <= i < ExchangeCount ==> ts[i] == AutoSkipTurn(call, write, thread, retries, delay, i)
  {
    seq(ExchangeCount, i requires 0 <= i < ExchangeCount => AutoSkipTurn(call, write, thread, retries, delay, i))
  }

  /**
   * In the skip loop an exchange counts exactly when it answered with tables
   * (the Guangzhou exchange in a thread that finished, in one attempt) and
   * its workbook was written; a workbook written without counting is the
   * Guangzhou placeholder.
   */
  lemma AutoSkipTurnMeaning(call: (nat, nat) -> CallResult, write: nat -> Option<string>, thread: ThreadOutcome,
    retries: nat, delay: nat, i: nat)
    ensures var t := AutoSkipTurn(call, write, thread, retries, delay, i);
      var ask := (k: nat) => call(i, k);
      var n := if i == Gfex then GfexAutoSkipRetries else retries;
      (t.saved <==> ((i != Gfex || thread.Finished?) &&
        SafeResult(ask, n).Some? && SafeResult(ask, n).value != [] && write(i).None?)) &&
      (t.saved ==> t.workbook == Some(Sheets.CleanSheets(SafeResult(ask, n).value))) &&
      (t.workbook.Some? && !t.saved ==> i == Gfex && exists note :: t.workbook.value == Placeholder(note)) &&
      (i == Gfex && thread.Finished? ==> Calls(ask, n) <= 1)
  {
    var t := AutoSkipTurn(call, write, thread, retries, delay, i);
    if t.workbook.Some? && !t.saved {
      if thread.StillRunning? {
        assert t.workbook.value == Placeholder(TimeoutNote);
      } else if thread.Failed? {
        assert t.workbook.value == Placeholder(FailureNote(thread.message));
      } else {
        assert t.workbook.value == Placeholder(FailureNote(write(i).value));
      }
    }
  }

  class CloudDataFetcher {
    var maxRetries: nat
    const timeout: nat
    const delayBetweenRequests: nat

    constructor()
      ensures maxRetries == 3 && timeout == 30 && delayBetweenRequests == 2
    {
      maxRetries := 3;
      timeout := 30;
      delayBetweenRequests := 2;
    }

    /**
     * `safe_akshare_call`: at most `maxRetries` calls; the first value
     * other than `None` is returned; `delay * k` seconds before attempt
     * `k >= 1`, and after an exception the extra pause its message calls
     * for; `None` when every attempt missed.
     */
    method SafeAkshareCall(call: nat -> CallResult) returns (result: Option<seq<Sheets.Sheet>>, calls: nat, waits: seq<nat>)
      ensures result == SafeResult(call, maxRetries)
      ensures calls == Calls(call, maxRetries) <= maxRetries
      ensures waits == Waits(call, delayBetweenRequests, calls)
    {
      var n := maxRetries;
      calls := 0;
      waits := [];
      var attempt := 0;
      while attempt < n
        invariant 0 <= attempt <= n
        invariant calls == attempt
        invariant FirstAnswer(call, n, 0) == FirstAnswer(call, n, attempt)
        invariant waits == Waits(call, delayBetweenRequests, attempt)
      {
        if attempt > 0 {
          waits := waits + [delayBetweenRequests * attempt];
        }
        var r := call(attempt);
        calls := calls + 1;
        if r.Returned? && r.value.Some? {
          assert waits == Waits(call, delayBetweenRequests, attempt + 1);
          return r.value, calls, waits;
        }
        if r.Raised? {
          waits := waits + ExtraWaits(r.message);
        } else {
          assert waits + [] == waits;
        }
        assert waits == Waits(call, delayBetweenRequests, attempt + 1);
        attempt := attempt + 1;
      }
      result := None;
    }

    /** One exchange of the fallback loop, with the Guangzhou retry budget set and then restored. */
    method FallbackExchange(call: (nat, nat) -> CallResult, write: nat -> Option<string>, i: nat) returns (t: Turn)
      modifies this
      ensures maxRetries == old(maxRetries)
      ensures t == FallbackTurn(call, write, maxRetries, delayBetweenRequests, i)
    {
      var ask := (k: nat) => call(i, k);
      var originalRetries := maxRetries;
      if i == Gfex {
        maxRetries := GfexFallbackRetries;
      }
      var data, calls, waits := SafeAkshareCall(ask);
      if i == Gfex {
        maxRetries := originalRetries;
      }
      if data.Some? && data.value != [] {
        if write(i).Some? {
          return Turn(false, None, waits);
        }
        waits := waits + [if i == Gfex then 2 * delayBetweenRequests else delayBetweenRequests];
        return Turn(true, Some(Sheets.CleanSheets(data.value)), waits);
      }
      t := Turn(false, None, waits + [if i == Gfex then 2 * delayBetweenRequests else delayBetweenRequests]);
    }

    /**
     * `fetch_position_data_with_fallback`: the five exchanges in turn; the
     * result is whether at least one was saved, and the retry budget is as
     * it was before.
     */
    method FetchPositionDataWithFallback(call: (nat, nat) -> CallResult, write: nat -> Option<string>)
      returns (ok: bool, disk: Sheets.Sink, waits: seq<nat>)
      modifies this
      ensures maxRetries == old(maxRetries)
      ensures var r := Run(FallbackTurns(call, write, maxRetries, delayBetweenRequests));
        (ok <==> r.saved >= 1) && disk == r.disk && waits == r.waits
    {
      ghost var turns := FallbackTurns(call, write, maxRetries, delayBetweenRequests);
      var successCount := 0;
      disk := map[];
      waits := [];
      var i := 0;
      while i < ExchangeCount
        invariant 0 <= i <= ExchangeCount
        invariant maxRetries == old(maxRetries)
        invariant Run(turns[..i]) == RunState(successCount, disk, waits)
      {
        RunStep(turns, i);
        var t := FallbackExchange(call, write, i);
        if t.saved {
          successCount := successCount + 1;
        }
        if t.workbook.Some? {
          disk := disk[File(i) := t.workbook.value];
        }
        waits := waits + t.waits;
        i := i + 1;
      }
      assert turns[..i] == turns;
      ok := successCount >= 3 || successCount > 0;
    }

    /** One exchange of the skip loop; the Guangzhou budget of one attempt is restored in every case. */
    method AutoSkipExchange(call: (nat, nat) -> CallResult, write: nat -> Option<string>, thread: ThreadOutcome, i: nat)
      returns (t: Turn)
      modifies this
      ensures maxRetries == old(maxRetries)
      ensures t == AutoSkipTurn(call, write, thread, maxRetries, delayBetweenRequests, i)
    {
      var ask := (k: nat) => call(i, k);
      var data: Option<seq<Sheets.Sheet>>;
      var calls: nat;
      var waits: seq<nat>;
      if i == Gfex {
        var originalRetries := maxRetries;
        maxRetries := GfexAutoSkipRetries;
        if thread.StillRunning? {
          maxRetries := originalRetries;
          return Turn(false, Some(Placeholder(TimeoutNote)), []);
        } else if thread.NoResult? {
          maxRetries := originalRetries;
          return Turn(false, None, []);
        } else if thread.Failed? {
          maxRetries := originalRetries;
          return Turn(false, Some(Placeholder(FailureNote(thread.message))), []);
        }
        data, calls, waits := SafeAkshareCall(ask);
        maxRetries := originalRetries;
      } else {
        data, calls, waits := SafeAkshareCall(ask);
      }
      if data.Some? && data.value != [] {
        var failure := write(i);
        if failure.Some? {
          if i == Gfex {
            return Turn(false, Some(Placeholder(FailureNote(failure.value))), waits);
          }
          return Turn(false, None, waits);
        }
        return Turn(true, Some(Sheets.CleanSheets(data.value)), waits + [delayBetweenRequests]);
      }
      t := Turn(false, None, waits + [delayBetweenRequests]);
    }

    /**
     * `fetch_position_data_with_auto_skip`: the five exchanges in turn; the
     * result is whether at least one was saved (a placeholder does not
     * count), and the retry budget is as it was before.
     */
    method FetchPositionDataWithAutoSkip(call: (nat, nat) -> CallResult, write: nat -> Option<string>, thread: ThreadOutcome)
      returns (ok: bool, disk: Sheets.Sink, waits: seq<nat>)
      modifies this
      ensures maxRetries == old(maxRetries)
      ensures var r := Run(AutoSkipTurns(call, write, thread, maxRetries, delayBetweenRequests));
        (ok <==> r.saved >= 1) && disk == r.disk && waits == r.waits
    {
      ghost var turns := AutoSkipTurns(call, write, thread, maxRetries, delayBetweenRequests);
      var successCount := 0;
      disk := map[];
      waits := [];
      var i := 0;
      while i < ExchangeCount
        invariant 0 <= i <= ExchangeCount
        invariant maxRetries == old(maxRetries)
        invariant Run(turns[..i]) == RunState(successCount, disk, waits)
      {
        RunStep(turns, i);
        var t := AutoSkipExchange(call, write, thread, i);
        if t.saved {
          successCount := successCount + 1;
        }
        if t.workbook.Some? {
          disk := disk[File(i) := t.workbook.value];
        }
        waits := waits + t.waits;
        i := i + 1;
      }
      assert turns[..i] == turns;
      ok := successCount >= 3 || successCount > 0;
    }
  }
}
