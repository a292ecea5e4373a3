/**
 * The queued, batching change logger (`QueuingChangeLogger` and
 * `ScheduledQueuingChangeLogger`). Changes are logged into a FIFO; a task on
 * a timer polls them one by one and hands them to the storage layer in
 * batches of at most `maxBatchSize`: a batch is started lazily when the first
 * change of it is polled and finished once the count reaches the maximum, and
 * a batch still open when the FIFO runs empty is finished at the end.
 *
 * A run is modelled by the sequence of storage calls it makes. Failures of
 * `persist` and `finishBatch` are logged and do not change what the logger task does
 * next; a failing `startBatch` ends the run, and the change just polled is
 * lost. `startOk(k)` says whether the k-th `startBatch` of the run succeeds.
 */
module ChangeLogger {
  import opened Wrappers
  import opened JavaLang
  import opened ChangeModel

  // ---------------------------------------------------------------------------
  // The FIFO

  /** `logChange`: appends to the FIFO. */
  function LogChange(fifo: seq<Change>, c: Change): (r: seq<Change>)
    ensures |r| == |fifo| + 1 && r[|fifo|] == c && r[..|fifo|] == fifo
  {
    fifo + [c]
  }

  /** `pollChange`: the oldest change and the rest, or nothing when empty. */
  function PollChange(fifo: seq<Change>): (r: (Option<Change>, seq<Change>))
    ensures r.0.None? <==> fifo == []
    ensures r.0.Some? ==> [r.0.value] + r.1 == fifo
    ensures r.0.None? ==> r.1 == []
  {
    if |fifo| == 0 then (None, []) else (Some(fifo[0]), fifo[1..])
  }

  /** First in, first out: a change logged into an empty FIFO is the next one polled. */
  lemma LogThenPoll(fifo: seq<Change>, c: Change)
    ensures PollChange(LogChange(fifo, c)) == if fifo == [] then (Some(c), []) else (Some(fifo[0]), LogChange(fifo[1..], c))
  {
    if fifo != [] {
      assert LogChange(fifo, c)[1..] == fifo[1..] + [c];
    }
  }

  // ---------------------------------------------------------------------------
  // The logger task

  /** The logger as constructed: the batch limit it was given. */
  datatype Logger = Logger(maxBatchSize: i32)

  /** `getMaxBatchSize`: the constructor's argument. */
  function GetMaxBatchSize(l: Logger): (m: i32)
  {
    l.maxBatchSize
  }

  lemma MaxBatchSizeRoundTrip(m: i32)
    ensures GetMaxBatchSize(Logger(m)) == m
  {
  }

  /** One call from the logger task to the storage layer. */
  datatype Call =
    | Start                     // `startBatch()` that succeeded
    | StartFailed               // `startBatch()` that threw: the run ends
    | Persist(change: Change)   // `persist(change)`
    | Finish                    // `finishBatch()`

  /**
   * What a run did: its calls, the change lost to a failing `startBatch` (if
   * any), and the changes left in the FIFO.
   */
  datatype RunResult = RunResult(calls: seq<Call>, lost: Option<Change>, remaining: seq<Change>)

  /** The new count after a persisted change, and whether it finishes the batch. */
  function Count(logged: i32, max: i32): (r: (i32, bool))
  {
    var logged' := Wrap32(logged as int + 1);
    (logged', logged' >= max)
  }

  /**
   * The calls of one step of the loop on change `c`: `startBatch` unless a
   * batch is open, `persist(c)`, and `finishBatch` if the count reached the
   * limit; then the calls `rest` of the steps after it.
   */
  function StepCalls(open: bool, c: Change, closes: bool, rest: seq<Call>): (r: seq<Call>)
    ensures |r| > 0 && r[0] == (if open then Persist(c) else Start)
  {
    if open then [Persist(c)] + (if closes then [Finish] + rest else rest)
    else [Start] + ([Persist(c)] + (if closes then [Finish] + rest else rest))
  }

  /**
   * The loop of the logger task, from a state where a batch is `open` or not and
   * `logged` changes have been counted, after `starts` calls to `startBatch`.
   * With `reset`, the count goes back to zero when a batch is finished;
   * without it (the code as written), the count is never reset.
   */
  function Loop(fifo: seq<Change>, max: i32, reset: bool, open: bool, logged: i32, starts: nat, startOk: nat -> bool): (r: RunResult)
    ensures !open && |r.calls| > 0 ==> r.calls[0] == Start || r.calls[0] == StartFailed
    ensures fifo != [] ==> |r.calls| > 0
    ensures fifo == [] ==> r.lost.None? && r.remaining == []
    ensures r.lost.None? ==> r.remaining == []
    decreases |fifo|
  {
    if |fifo| == 0 then RunResult(if open then [Finish] else [], None, [])
    else if !open && !startOk(starts) then RunResult([StartFailed], Some(fifo[0]), fifo[1..])
    else
      var (logged', closes) := Count(logged, max);
      var rest := Loop(fifo[1..], max, reset, !closes, if closes && reset then 0 else logged',
                       if open then starts else starts + 1, startOk);
      rest.(calls := StepCalls(open, fifo[0], closes, rest.calls))
  }

  /** One run of the logger task, with the count reset after each finished batch. */
  function Run(l: Logger, fifo: seq<Change>, startOk: nat -> bool): (r: RunResult)
    ensures fifo == [] ==> r == RunResult([], None, [])
    ensures fifo != [] ==> |r.calls| > 0 && (r.calls[0] == Start || r.calls[0] == StartFailed)
  {
    Loop(fifo, l.maxBatchSize, true, false, 0, 0, startOk)
  }

  /** One run of the logger task as written: `loggedChanges` is never reset. */
  function RunAsWritten(l: Logger, fifo: seq<Change>, startOk: nat -> bool): (r: RunResult)
    ensures fifo == [] ==> r == RunResult([], None, [])
    ensures fifo != [] ==> |r.calls| > 0 && (r.calls[0] == Start || r.calls[0] == StartFailed)
  {
    Loop(fifo, l.maxBatchSize, false, false, 0, 0, startOk)
  }

  /** One step of the loop, when a change is polled and a batch is open or starts. */
  lemma LoopUnfold(fifo: seq<Change>, max: i32, reset: bool, open: bool, logged: i32, starts: nat, startOk: nat -> bool)
    requires fifo != []
    ensures !open && !startOk(starts) ==> Loop(fifo, max, reset, open, logged, starts, startOk) == RunResult([StartFailed], Some(fifo[0]), fifo[1..])
    ensures open || startOk(starts) ==>
      var logged' := Wrap32(logged as int + 1);
      var closes := logged' >= max;
      var rest := Loop(fifo[1..], max, reset, !closes, if closes && reset then 0 else logged', if open then starts else starts + 1, startOk);
      Loop(fifo, max, reset, open, logged, starts, startOk) == rest.(calls := StepCalls(open, fifo[0], closes, rest.calls))
  {
  }

  /** Appending one step's calls one by one, then the rest, is `StepCalls`. */
  lemma StepAppends(before: seq<Call>, open: bool, c: Change, closes: bool, rest: seq<Call>)
    ensures (if open then before else before + [Start]) + [Persist(c)] + (if closes then [Finish] else []) + rest
         == before + StepCalls(open, c, closes, rest)
  {
  }

  /**
   * One pass of the loop in `RunTask` when the polled change is logged: the
   * run seen from the state after it, with the pass's calls appended.
   */
  lemma RunTaskStep(l: Logger, fifo: seq<Change>, reset: bool, startOk: nat -> bool, queue: seq<Change>, open: bool, logged: i32, starts: nat, before: seq<Call>)
    requires queue != [] && (open || startOk(starts))
    requires var r := Loop(queue, l.maxBatchSize, reset, open, logged, starts, startOk);
      Loop(fifo, l.maxBatchSize, reset, false, 0, 0, startOk) == r.(calls := before + r.calls)
    ensures var logged' := Wrap32(logged as int + 1);
      var closes := logged' >= l.maxBatchSize;
      var r := Loop(queue[1..], l.maxBatchSize, reset, !closes, if closes && reset then 0 else logged', if open then starts else starts + 1, startOk);
      Loop(fifo, l.maxBatchSize, reset, false, 0, 0, startOk)
        == r.(calls := (if open then before else before + [Start]) + [Persist(queue[0])] + (if closes then [Finish] else []) + r.calls)
  {
    LoopUnfold(queue, l.maxBatchSize, reset, open, logged, starts, startOk);
    var logged' := Wrap32(logged as int + 1);
    var closes := logged' >= l.maxBatchSize;
    var r := Loop(queue[1..], l.maxBatchSize, reset, !closes, if closes && reset then 0 else logged', if open then starts else starts + 1, startOk);
    StepAppends(before, open, queue[0], closes, r.calls);
  }

  /**
   * `ChangeLoggerTask.run()` as a loop over the FIFO, polling one change at a
   * time. Without `reset` it is the code as written, where `loggedChanges` is
   * never reset, and it makes the same calls, loses the same change and
   * leaves the same FIFO as `RunAsWritten`; with `reset` (the corrected form)
   * it does the same as `Run`.
   */
  method RunTask(l: Logger, fifo: seq<Change>, reset: bool, startOk: nat -> bool) returns (calls: seq<Call>, lost: Option<Change>, remaining: seq<Change>)
    ensures !reset ==> RunResult(calls, lost, remaining) == RunAsWritten(l, fifo, startOk)
    ensures reset ==> RunResult(calls, lost, remaining) == Run(l, fifo, startOk)
  {
    var queue := fifo;
    var batchStarted := false;
    var loggedChanges: i32 := 0;
    var starts: nat := 0;
    calls := [];
    while true
      invariant var r := Loop(queue, l.maxBatchSize, reset, batchStarted, loggedChanges, starts, startOk);
        Loop(fifo, l.maxBatchSize, reset, false, 0, 0, startOk) == r.(calls := calls + r.calls)
      decreases |queue|
    {
      var (next, rest) := PollChange(queue);
      if next.None? {
        break;
      }
      var change := next.value;
      ghost var wasQueue, wasOpen, wasLogged, wasStarts, before := queue, batchStarted, loggedChanges, starts, calls;
      var started;
      started, batchStarted, loggedChanges, starts, calls := LogOne(l, change, reset, batchStarted, loggedChanges, starts, startOk, calls);
      if !started {
        LoopUnfold(wasQueue, l.maxBatchSize, reset, wasOpen, wasLogged, wasStarts, startOk);
        return calls, Some(change), rest;
      }
      RunTaskStep(l, fifo, reset, startOk, wasQueue, wasOpen, wasLogged, wasStarts, before);
      queue := rest;
    }
    if batchStarted {
      calls := calls + [Finish];
    }
    return calls, None, [];
  }

  /**
   * The body of the loop in `ChangeLoggerTask.run()` for one polled change:
   * start a batch unless one is open (giving up when that fails), persist
   * the change, count it, and finish the batch once the count reaches the
   * limit. Without `reset` (the code as written) the count carries on past a
   * finished batch; with `reset` (the corrected form) it goes back to zero.
   */
  method LogOne(l: Logger, change: Change, reset: bool, open: bool, logged: i32, starts: nat, startOk: nat -> bool, calls: seq<Call>)
    returns (started: bool, open': bool, logged': i32, starts': nat, calls': seq<Call>)
    ensures started <==> open || startOk(starts)
    ensures !started ==> calls' == calls + [StartFailed]
    ensures started ==>
      var count := Wrap32(logged as int + 1);
      var closes := count >= l.maxBatchSize;
      && open' == !closes && logged' == (if closes && reset then 0 else count)
      && starts' == (if open then starts else starts + 1)
      && calls' == (if open then calls else calls + [Start]) + [Persist(change)] + (if closes then [Finish] else [])
  {
    open', logged', starts', calls' := open, logged, starts, calls;
    if !open' {
      if !startOk(starts') {
        calls' := calls' + [StartFailed];
        return false, open', logged', starts', calls';
      }
      starts' := starts' + 1;
      open' := true;
      calls' := calls' + [Start];
    }
    calls' := calls' + [Persist(change)];
    logged' := Wrap32(logged' as int + 1);
    if logged' >= l.maxBatchSize {
      calls' := calls' + [Finish];
      open' := false;
      if reset {
        logged' := 0;
      }
    }
    started := true;
  }

  /** The changes handed to `persist`, in order. */
  function Persisted(calls: seq<Call>): (r: seq<Change>)
    ensures |r| <= |calls|
  {
    if |calls| == 0 then []
    else (if calls[0].Persist? then [calls[0].change] else []) + Persisted(calls[1..])
  }

  lemma {:induction false} PersistedAppend(a: seq<Call>, b: seq<Call>)
    ensures Persisted(a + b) == Persisted(a) + Persisted(b)
  {
    if |a| == 0 {
      assert a + b == b;
    } else {
      var head := if a[0].Persist? then [a[0].change] else [];
      assert (a + b)[0] == a[0];
      assert (a + b)[1..] == a[1..] + b;
      PersistedAppend(a[1..], b);
      calc {
        Persisted(a + b);
        head + Persisted(a[1..] + b);
        head + (Persisted(a[1..]) + Persisted(b));
        (head + Persisted(a[1..])) + Persisted(b);
      }
    }
  }

  /** The lost change as a sequence of zero or one elements. */
  function OptionSeq(o: Option<Change>): seq<Change> {
    if o.Some? then [o.value] else []
  }

  /** The changes persisted by one step: its own change, then those of the rest. */
  lemma StepPersisted(open: bool, c: Change, closes: bool, rest: seq<Call>)
    ensures Persisted(StepCalls(open, c, closes, rest)) == [c] + Persisted(rest)
  {
    var after := if closes then [Finish] + rest else rest;
    PersistedCons(Finish, rest);
    assert Persisted(after) == Persisted(rest);
    PersistedCons(Persist(c), after);
    PersistedCons(Start, [Persist(c)] + after);
  }

  /** `Persisted` of a sequence with one more call in front. */
  lemma PersistedCons(x: Call, s: seq<Call>)
    ensures Persisted([x] + s) == (if x.Persist? then [x.change] else []) + Persisted(s)
  {
    assert ([x] + s)[1..] == s;
  }

  lemma ConsAssoc(x: Change, a: seq<Change>, b: seq<Change>, c: seq<Change>)
    ensures [x] + a + b + c == [x] + (a + b + c)
  {
  }

  /**
   * Nothing is duplicated and only an aborting `startBatch` loses a change:
   * the changes persisted, the one lost and those left in the FIFO are the
   * FIFO's changes in order.
   */
  lemma {:induction false} LoopConserves(fifo: seq<Change>, max: i32, reset: bool, open: bool, logged: i32, starts: nat, startOk: nat -> bool)
    ensures var r := Loop(fifo, max, reset, open, logged, starts, startOk);
      Persisted(r.calls) + OptionSeq(r.lost) + r.remaining == fifo
    decreases |fifo|
  {
    if |fifo| > 0 && (open || startOk(starts)) {
      var count := Count(logged, max);
      var closes := count.1;
      var next := if closes && reset then 0 else count.0;
      var starts' := if open then starts else starts + 1;
      LoopConserves(fifo[1..], max, reset, !closes, next, starts', startOk);
      var rest := Loop(fifo[1..], max, reset, !closes, next, starts', startOk);
      LoopStep(fifo, max, reset, open, logged, starts, startOk);
      StepPersisted(open, fifo[0], closes, rest.calls);
      ConsAssoc(fifo[0], Persisted(rest.calls), OptionSeq(rest.lost), rest.remaining);
      assert fifo == [fifo[0]] + fifo[1..];
    } else if |fifo| > 0 {
      assert Persisted([StartFailed]) == [];
    }
  }

  /** One step of the loop when a change is polled and a batch is open or starts. */
  lemma LoopStep(fifo: seq<Change>, max: i32, reset: bool, open: bool, logged: i32, starts: nat, startOk: nat -> bool)
    requires |fifo| > 0 && (open || startOk(starts))
    ensures var count := Count(logged, max);
      var rest := Loop(fifo[1..], max, reset, !count.1, if count.1 && reset then 0 else count.0,
                       if open then starts else starts + 1, startOk);
      Loop(fifo, max, reset, open, logged, starts, startOk) == rest.(calls := StepCalls(open, fifo[0], count.1, rest.calls))
  {
  }

  /** Every change polled by a run that does not abort reaches `persist`, and the FIFO is left empty. */
  lemma RunPersistsEverything(l: Logger, fifo: seq<Change>, startOk: nat -> bool)
    ensures Run(l, fifo, startOk).lost.None? ==> Persisted(Run(l, fifo, startOk).calls) == fifo && Run(l, fifo, startOk).remaining == []
    ensures Run(l, fifo, startOk).lost.Some? ==> |Persisted(Run(l, fifo, startOk).calls)| < |fifo|
  {
    LoopConserves(fifo, l.maxBatchSize, true, false, 0, 0, startOk);
  }

  /**
   * The calls are well bracketed: `persist` and `finishBatch` only inside a
   * started batch, `startBatch` only outside one, nothing after a failed
   * start, and no batch left open at the end.
   */
  predicate Bracketed(calls: seq<Call>, open: bool) {
    if |calls| == 0 then !open
    else match calls[0]
      case Start => !open && Bracketed(calls[1..], true)
      case StartFailed => !open && |calls| == 1
      case Persist(_) => open && Bracketed(calls[1..], true)
      case Finish => open && Bracketed(calls[1..], false)
  }

  /** Bracketing of one loop step: its own calls, then those of the rest. */
  lemma StepBracketed(open: bool, c: Change, closes: bool, rest: seq<Call>)
    requires Bracketed(rest, !closes)
    ensures Bracketed(StepCalls(open, c, closes, rest), open)
  {
    var after := if closes then [Finish] + rest else rest;
    if closes {
      assert ([Finish] + rest)[1..] == rest;
    }
    assert Bracketed(after, true);
    assert ([Persist(c)] + after)[1..] == after;
    if !open {
      assert ([Start] + ([Persist(c)] + after))[1..] == [Persist(c)] + after;
    }
  }

  lemma {:induction false} LoopBracketed(fifo: seq<Change>, max: i32, reset: bool, open: bool, logged: i32, starts: nat, startOk: nat -> bool)
    ensures Bracketed(Loop(fifo, max, reset, open, logged, starts, startOk).calls, open)
    decreases |fifo|
  {
    if |fifo| > 0 && (open || startOk(starts)) {
      var (logged', closes) := Count(logged, max);
      var next := if closes && reset then 0 else logged';
      var starts' := if open then starts else starts + 1;
      LoopBracketed(fifo[1..], max, reset, !closes, next, starts', startOk);
      StepBracketed(open, fifo[0], closes, Loop(fifo[1..], max, reset, !closes, next, starts', startOk).calls);
    }
  }

  /** Both variants of a run keep the storage calls well bracketed. */
  lemma RunBracketed(l: Logger, fifo: seq<Change>, startOk: nat -> bool)
    ensures Bracketed(Run(l, fifo, startOk).calls, false)
    ensures Bracketed(RunAsWritten(l, fifo, startOk).calls, false)
  {
    LoopBracketed(fifo, l.maxBatchSize, true, false, 0, 0, startOk);
    LoopBracketed(fifo, l.maxBatchSize, false, false, 0, 0, startOk);
  }

  // ---------------------------------------------------------------------------
  // Batch sizes

  /** The number of `persist` calls in each finished batch, in order; `current` is the open batch's count so far. */
  function BatchSizes(calls: seq<Call>, current: nat): seq<nat> {
    if |calls| == 0 then []
    else match calls[0]
      case Start => BatchSizes(calls[1..], 0)
      case StartFailed => BatchSizes(calls[1..], 0)
      case Persist(_) => BatchSizes(calls[1..], current + 1)
      case Finish => [current] + BatchSizes(calls[1..], 0)
  }

  function Sum(s: seq<nat>): nat {
    if |s| == 0 then 0 else s[0] + Sum(s[1..])
  }

  /** Batch sizes of one loop step: its own calls, then those of the rest. */
  lemma StepBatchSizes(open: bool, current: nat, c: Change, closes: bool, rest: seq<Call>)
    requires !open ==> current == 0
    ensures BatchSizes(StepCalls(open, c, closes, rest), current)
         == if closes then [current + 1] + BatchSizes(rest, 0) else BatchSizes(rest, current + 1)
  {
    var after := if closes then [Finish] + rest else rest;
    if closes {
      assert ([Finish] + rest)[1..] == rest;
    }
    assert ([Persist(c)] + after)[1..] == after;
    assert BatchSizes([Persist(c)] + after, current) == BatchSizes(after, current + 1);
    if closes {
      assert BatchSizes(after, current + 1) == [current + 1] + BatchSizes(rest, 0);
    }
    if !open {
      assert ([Start] + ([Persist(c)] + after))[1..] == [Persist(c)] + after;
      assert BatchSizes([Start] + ([Persist(c)] + after), current) == BatchSizes([Persist(c)] + after, 0);
    }
  }

  /**
   * Batches of `max` changes, the last possibly smaller, covering `n` more
   * changes after the `current` ones of the open batch.
   */
  predicate FullBatches(sizes: seq<nat>, n: nat, current: nat, max: nat) {
    && Sum(sizes) == n + current
    && (forall i :: 0 <= i < |sizes| - 1 ==> sizes[i] == max)
    && (|sizes| > 0 ==> 1 <= sizes[|sizes| - 1] <= max)
    && (n + current > 0 ==> |sizes| > 0)
  }

  lemma FullBatchesCons(s: seq<nat>, n: nat, max: nat)
    requires max >= 1 && FullBatches(s, n, 0, max)
    ensures FullBatches([max] + s, n + 1, max - 1, max)
  {
    var t := [max] + s;
    assert t[1..] == s;
    forall i | 0 <= i < |t| - 1 ensures t[i] == max {
      if i > 0 {
        assert t[i] == s[i - 1];
      }
    }
  }

  lemma {:induction false} LoopFullBatches(fifo: seq<Change>, max: i32, logged: i32, starts: nat, startOk: nat -> bool)
    requires max >= 1 && 0 <= logged < max
    requires forall k :: starts <= k ==> startOk(k)
    ensures FullBatches(BatchSizes(Loop(fifo, max, true, logged > 0, logged, starts, startOk).calls, logged as nat), |fifo|, logged as nat, max as nat)
    decreases |fifo|
  {
    var open := logged > 0;
    if |fifo| == 0 {
      if open {
        assert Loop(fifo, max, true, open, logged, starts, startOk).calls == [Finish];
        assert [Finish][1..] == [];
        assert BatchSizes([Finish], logged as nat) == [logged as nat];
        assert [logged as nat][1..] == [];
        assert Sum([logged as nat]) == logged as nat;
      }
    } else {
      var (logged', closes) := Count(logged, max);
      assert logged' as int == logged as int + 1;
      var next := if closes then 0 else logged';
      var starts' := if open then starts else starts + 1;
      LoopFullBatches(fifo[1..], max, next, starts', startOk);
      var rest := Loop(fifo[1..], max, true, !closes, next, starts', startOk).calls;
      StepBatchSizes(open, logged as nat, fifo[0], closes, rest);
      if closes {
        FullBatchesCons(BatchSizes(rest, 0), |fifo| - 1, max as nat);
      }
    }
  }

  /**
   * With the count reset after each batch, and every `startBatch`
   * succeeding, a run of `n` changes makes batches of exactly `max` changes
   * except the last, which holds between 1 and `max`.
   */
  lemma RunMakesFullBatches(l: Logger, fifo: seq<Change>, startOk: nat -> bool)
    requires l.maxBatchSize >= 1
    requires forall k :: startOk(k)
    ensures FullBatches(BatchSizes(Run(l, fifo, startOk).calls, 0), |fifo|, 0, l.maxBatchSize as nat)
  {
    LoopFullBatches(fifo, l.maxBatchSize, 0, 0, startOk);
  }

  /** A `startBatch` that always succeeds. */
  function AlwaysOk(k: nat): bool {
    true
  }

  /**
   * As written, a run of five changes with a limit of two makes batches of
   * 2, 1, 1 and 1 changes: once the count reaches the limit it stays there,
   * so every later change is a batch of its own.
   */
  lemma AsWrittenBatchesShrink(c: Change)
    ensures BatchSizes(RunAsWritten(Logger(2), [c, c, c, c, c], AlwaysOk).calls, 0) == [2, 1, 1, 1]
  {
    var f := [c, c, c, c, c];
    assert f[1..][1..] == f[2..];
    // The count goes 1, 2, 3, 4, 5; every step from the second on finishes a batch.
    AsWrittenSaturated(f[2..], 2, 2, 1);
    assert seq(|f[2..]|, _ => 1) == [1, 1, 1];
    LoopBatchStep(f[1..], 2, false, true, 1, 1, 1, true);
    LoopBatchStep(f, 2, false, false, 0, 0, 0, false);
  }

  /**
   * As written, once the count has reached the limit, every further change
   * is a batch of its own (while the count stays below `Integer.MAX_VALUE`).
   */
  lemma {:induction false} AsWrittenSaturated(fifo: seq<Change>, max: i32, logged: i32, starts: nat)
    requires logged as int + 1 >= max as int && logged as int + |fifo| < INT_MAX
    ensures BatchSizes(Loop(fifo, max, false, false, logged, starts, AlwaysOk).calls, 0) == seq(|fifo|, _ => 1)
    decreases |fifo|
  {
    if fifo != [] {
      LoopBatchStep(fifo, max, false, false, logged, starts, 0, true);
      AsWrittenSaturated(fifo[1..], max, logged + 1, starts + 1);
      assert [1] + seq(|fifo| - 1, _ => 1) == seq(|fifo|, _ => 1);
    }
  }

  /** With the count reset, the same run makes batches of 2, 2 and 1 changes. */
  lemma ResetBatchesStayFull(c: Change)
    ensures BatchSizes(Run(Logger(2), [c, c, c, c, c], AlwaysOk).calls, 0) == [2, 2, 1]
  {
    var f := [c, c, c, c, c];
    var s := BatchSizes(Run(Logger(2), f, AlwaysOk).calls, 0);
    RunMakesFullBatches(Logger(2), f, AlwaysOk);
    SumOfFullBatches(s, 2);
    // 5 == 2 * (|s| - 1) + last with 1 <= last <= 2 leaves three batches, the last of one change.
    assert |s| == 3 && s[2] == 1;
  }

  /** Batches full but for the last hold `max` changes for each batch before the last. */
  lemma {:induction false} SumOfFullBatches(s: seq<nat>, max: nat)
    requires |s| > 0 && forall i :: 0 <= i < |s| - 1 ==> s[i] == max
    ensures Sum(s) == max * (|s| - 1) + s[|s| - 1]
  {
    if |s| > 1 {
      assert forall i :: 0 <= i < |s[1..]| - 1 ==> s[1..][i] == s[i + 1];
      SumOfFullBatches(s[1..], max);
      assert max * (|s| - 1) == max + max * (|s| - 2);
    }
  }

  /**
   * Batch sizes of one step of a run in which every `startBatch` succeeds,
   * with the count below `Integer.MAX_VALUE`.
   */
  lemma LoopBatchStep(fifo: seq<Change>, max: i32, reset: bool, open: bool, logged: i32, starts: nat, current: nat, closes: bool)
    requires fifo != [] && logged < INT_MAX && closes == (logged as int + 1 >= max as int)
    requires !open ==> current == 0
    ensures var rest := Loop(fifo[1..], max, reset, !closes, if closes && reset then 0 else logged + 1,
                             if open then starts else starts + 1, AlwaysOk).calls;
      BatchSizes(Loop(fifo, max, reset, open, logged, starts, AlwaysOk).calls, current) ==
        if closes then [current + 1] + BatchSizes(rest, 0) else BatchSizes(rest, current + 1)
  {
    assert Count(logged, max) == (logged + 1, closes);
    var rest := Loop(fifo[1..], max, reset, !closes, if closes && reset then 0 else logged + 1,
                     if open then starts else starts + 1, AlwaysOk).calls;
    assert Loop(fifo, max, reset, open, logged, starts, AlwaysOk).calls == StepCalls(open, fifo[0], closes, rest);
    StepBatchSizes(open, current, fifo[0], closes, rest);
  }


}
