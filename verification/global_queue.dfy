/**
 * The global block-queue scheduler (`GlobalBlockQueue`): every local queue is
 * either inactive (being filled), active (enqueued for placement) or neither.
 * A repeating tick picks one queue — active ones first, then an inactive one
 * that is large or old enough — and drains its chunks for as long as the time
 * budget allows. Callbacks registered with `addEmptyTask` run once both sets
 * are empty.
 *
 * The model is one sequential state machine. Queues are referred to by
 * identity (`QueueId`) in a heap of local queues; callbacks are identities
 * too, and running one appends it to the `fired` trace. Every clock reading
 * is an input: `clock(k)` is the k-th reading of a tick, and `ok(k)` says
 * whether applying the chunk taken by the k-th `next()` succeeds.
 */
module GlobalQueue {
  import opened Wrappers
  import opened JavaLang
  import opened LocalBlockQueue

  type QueueId = nat
  type Task = nat

  datatype Global = Global(
    queues: map<QueueId, Queue>,
    active: seq<QueueId>,
    inactive: seq<QueueId>,
    runnables: seq<Task>,
    fired: seq<Task>,
    last: i64,
    secondLast: i64,
    lastPeriod: int,
    targetTime: i32,
    nextId: QueueId)

  /**
   * Both sets refer to known queues and hold each at most once; every known
   * queue keeps its own invariant, and identities below `nextId` are taken.
   */
  ghost predicate Valid(g: Global) {
    && (forall id :: id in g.active ==> id in g.queues)
    && (forall id :: id in g.inactive ==> id in g.queues)
    && (forall id :: id in g.queues ==> LocalBlockQueue.Valid(g.queues[id]) && id < g.nextId)
    && NoDup(g.active)
    && NoDup(g.inactive)
  }

  /** The constructor: no queues, no callbacks, all times zero. */
  function NewGlobal(targetTime: i32): (g: Global)
    ensures Valid(g) && g.active == [] && g.inactive == [] && g.runnables == [] && g.fired == []
    ensures g.lastPeriod == 0 && g.targetTime == targetTime
  {
    Global(map[], [], [], [], [], 0, 0, 0, targetTime, 0)
  }

  function SizeOf(g: Global, id: QueueId): nat
    requires id in g.queues
  {
    Size(g.queues[id])
  }

  /**
   * `getNewQueue`: a fresh local queue for `world`, created at `now`; it joins
   * the inactive set if and only if `autoQueue` is set.
   */
  function GetNewQueue(g: Global, world: string, autoQueue: bool, now: i64): (r: (Global, QueueId))
    requires Valid(g)
    ensures Valid(r.0)
    ensures r.1 !in g.queues && r.1 in r.0.queues && r.0.queues[r.1] == NewQueue(world, now)
    ensures r.1 in r.0.inactive <==> autoQueue
    ensures r.1 !in r.0.active && r.0.active == g.active
    ensures forall id :: id in g.queues ==> id in r.0.queues && r.0.queues[id] == g.queues[id]
    ensures forall id :: id != r.1 ==> (id in r.0.inactive <==> id in g.inactive)
  {
    var id := g.nextId;
    var g1 := g.(queues := g.queues[id := NewQueue(world, now)], nextId := id + 1);
    if autoQueue then
      NoDupSnoc(g.inactive, id);
      (g1.(inactive := g.inactive + [id]), id)
    else (g1, id)
  }

  /**
   * The scheduler object: the state the repeating task works on, the
   * `running` flag, and how many repeating tasks have been registered with
   * the server's scheduler (`TaskManager.runTaskRepeat`). Nothing ever
   * cancels a registered task.
   */
  datatype Scheduler = Scheduler(state: Global, running: bool, repeating: nat)

  function NewScheduler(targetTime: i32): (s: Scheduler)
    ensures Valid(s.state) && !s.running && s.repeating == 0
  {
    Scheduler(NewGlobal(targetTime), false, 0)
  }

  /**
   * `runTask`: when not yet running, sets the flag and registers the
   * repeating task (which runs `Tick`); otherwise does nothing.
   */
  function RunTask(s: Scheduler): (r: Scheduler)
    ensures r.running && r.state == s.state
    ensures r.repeating == if s.running then s.repeating else s.repeating + 1
  {
    if s.running then s else s.(running := true, repeating := s.repeating + 1)
  }

  /** However often `runTask` is called, one repeating task is registered. */
  lemma RunTaskIdempotent(s: Scheduler)
    requires !s.running && s.repeating == 0
    ensures RunTask(RunTask(s)) == RunTask(s) && RunTask(s).repeating == 1
  {
  }

  /**
   * `enqueue`: the queue always leaves the inactive set; it joins the active
   * set when it has chunks and is not there already. Nothing else changes.
   */
  function Enqueue(g: Global, id: QueueId): (r: Global)
    requires Valid(g) && id in g.queues
    ensures Valid(r)
    ensures id !in r.inactive
    ensures id in r.active <==> id in g.active || SizeOf(g, id) > 0
    ensures forall other :: other != id ==> (other in r.active <==> other in g.active) && (other in r.inactive <==> other in g.inactive)
    ensures r.queues == g.queues && r.runnables == g.runnables && r.fired == g.fired
  {
    var inactive := RemoveFirst(g.inactive, id);
    if SizeOf(g, id) > 0 && id !in g.active then
      NoDupSnoc(g.active, id);
      g.(inactive := inactive, active := g.active + [id])
    else g.(inactive := inactive)
  }

  /** An empty queue that was not active ends up in neither set. */
  lemma EnqueueEmptyLeavesBothSets(g: Global, id: QueueId)
    requires Valid(g) && id in g.queues && SizeOf(g, id) == 0 && id !in g.active
    ensures id !in Enqueue(g, id).active && id !in Enqueue(g, id).inactive
  {
  }

  // ---------------------------------------------------------------------------
  // getNextQueue

  /** `now - getModified()` in `long` arithmetic. */
  function Age(g: Global, id: QueueId, now: i64): i64
    requires id in g.queues
  {
    Wrap64(now as int - g.queues[id].modified as int)
  }

  /** The active phase: empty heads are polled until a queue with chunks is at the head. */
  function ActiveHead(g: Global, active: seq<QueueId>): (r: (nat, Option<QueueId>))
    requires forall id :: id in active ==> id in g.queues
    ensures r.0 <= |active|
    ensures forall i :: 0 <= i < r.0 ==> SizeOf(g, active[i]) == 0
    ensures r.1.Some? ==> r.0 < |active| && active[r.0] == r.1.value && SizeOf(g, r.1.value) > 0
    ensures r.1.None? ==> r.0 == |active|
    ensures r.1 == FirstNonEmpty(g, active)
  {
    if |active| == 0 then (0, None)
    else if SizeOf(g, active[0]) > 0 then (0, Some(active[0]))
    else
      var r := ActiveHead(g, active[1..]);
      assert forall i :: 0 < i <= r.0 ==> active[i] == active[1..][i - 1];
      (r.0 + 1, r.1)
  }

  function SumSizes(g: Global, ids: seq<QueueId>): nat
    requires forall id :: id in ids ==> id in g.queues
  {
    if |ids| == 0 then 0 else SizeOf(g, ids[0]) + SumSizes(g, ids[1..])
  }

  /** Empty and unmodified for more than a minute: such a queue is dropped by the scan. */
  predicate Stale(g: Global, id: QueueId, now: i64)
    requires id in g.queues
  {
    SizeOf(g, id) == 0 && Age(g, id, now) > 60000
  }

  /** The first queue with chunks, if any. */
  function FirstNonEmpty(g: Global, ids: seq<QueueId>): (r: Option<QueueId>)
    requires forall id :: id in ids ==> id in g.queues
    ensures r.Some? ==> r.value in ids && SizeOf(g, r.value) > 0
    ensures r.None? ==> forall id :: id in ids ==> SizeOf(g, id) == 0
  {
    if |ids| == 0 then None
    else if SizeOf(g, ids[0]) > 0 then Some(ids[0])
    else FirstNonEmpty(g, ids[1..])
  }

  /**
   * The inactive phase, from the iterator's position: `kept` is what remains
   * of the set before it, `total` the running size sum (at most 64, or the
   * scan would have stopped), `first` the first queue with chunks seen so far.
   * Returns the new inactive list and the chosen queue.
   */
  function Scan(g: Global, ids: seq<QueueId>, kept: seq<QueueId>, total: int, first: Option<QueueId>, now: i64)
    : (r: (seq<QueueId>, Option<QueueId>))
    requires forall id :: id in ids ==> id in g.queues
    requires first.Some? ==> first.value in g.queues && SizeOf(g, first.value) > 0
    requires total <= 64
    ensures forall id :: id in kept ==> id in r.0
    ensures forall id :: id in r.0 ==> id in kept || id in ids
    ensures forall id :: id in ids && id !in r.0 ==> Stale(g, id, now)
    ensures NoDup(kept + ids) ==> NoDup(r.0)
    ensures r.1.Some? ==> (r.1 == first || r.1.value in ids) && SizeOf(g, r.1.value) > 0
  {
    if |ids| == 0 then
      assert kept + ids == kept;
      (kept, None)
    else
      var id := ids[0];
      var total' := total + SizeOf(g, id);
      assert forall x :: x in ids <==> x == id || x in ids[1..];
      if SizeOf(g, id) == 0 then
        if Age(g, id, now) > 60000 then
          assert kept + ids == kept + [id] + ids[1..];
          NoDupDropAt(kept, id, ids[1..]);
          Scan(g, ids[1..], kept, total', first, now)
        else
          assert (kept + [id]) + ids[1..] == kept + ids;
          Scan(g, ids[1..], kept + [id], total', first, now)
      else
        var first' := if first.None? then Some(id) else first;
        if total' > 64 then (kept + ids, first')
        else if Age(g, id, now) > 1000 then (kept + ids, Some(id))
        else
          assert (kept + [id]) + ids[1..] == kept + ids;
          Scan(g, ids[1..], kept + [id], total', first', now)
  }

  lemma NoDupDropAt(a: seq<QueueId>, x: QueueId, b: seq<QueueId>)
    ensures NoDup(a + [x] + b) ==> NoDup(a + b)
  {
    var s, t := a + [x] + b, a + b;
    forall i, j | 0 <= i < j < |t| && NoDup(s) ensures t[i] != t[j] {
      var i' := if i < |a| then i else i + 1;
      var j' := if j < |a| then j else j + 1;
      assert t[i] == s[i'] && t[j] == s[j'];
    }
  }

  lemma NoDupSuffix(s: seq<QueueId>, k: nat)
    requires k <= |s|
    ensures NoDup(s) ==> NoDup(s[k..])
  {
    forall i, j | 0 <= i < j < |s[k..]| && NoDup(s) ensures s[k..][i] != s[k..][j] {
      assert s[k..][i] == s[k + i] && s[k..][j] == s[k + j];
    }
  }

  /**
   * A queue the scan chooses while it is fresh (touched within the last
   * second) is the first with chunks, chosen because the sizes passed 64.
   */
  lemma {:induction false} ScanChoosesFirst(g: Global, ids: seq<QueueId>, kept: seq<QueueId>, total: int, first: Option<QueueId>, now: i64)
    requires forall id :: id in ids ==> id in g.queues
    requires first.Some? ==> first.value in g.queues && SizeOf(g, first.value) > 0
    requires total <= 64
    ensures var r := Scan(g, ids, kept, total, first, now);
      r.1.Some? && Age(g, r.1.value, now) <= 1000 ==>
        && (if first.Some? then r.1 == first else r.1 == FirstNonEmpty(g, ids))
        && total + SumSizes(g, ids) > 64
    decreases |ids|
  {
    var r := Scan(g, ids, kept, total, first, now);
    if |ids| > 0 && r.1.Some? && Age(g, r.1.value, now) <= 1000 {
      var id := ids[0];
      var total' := total + SizeOf(g, id);
      if SizeOf(g, id) == 0 {
        var kept' := if Age(g, id, now) > 60000 then kept else kept + [id];
        assert r == Scan(g, ids[1..], kept', total', first, now);
        assert forall x :: x in ids[1..] ==> x in ids;
        ScanChoosesFirst(g, ids[1..], kept', total', first, now);
      } else if total' <= 64 && Age(g, id, now) <= 1000 {
        var first' := if first.None? then Some(id) else first;
        assert r == Scan(g, ids[1..], kept + [id], total', first', now);
        assert forall x :: x in ids[1..] ==> x in ids;
        ScanChoosesFirst(g, ids[1..], kept + [id], total', first', now);
      } else {
        assert total' > 64;
      }
    }
  }

  /**
   * When the scan chooses nothing, every queue with chunks is fresh, the
   * sizes stay within 64 and exactly the stale queues are dropped.
   */
  lemma {:induction false} ScanChoosesNothing(g: Global, ids: seq<QueueId>, kept: seq<QueueId>, total: int, first: Option<QueueId>, now: i64)
    requires forall id :: id in ids ==> id in g.queues
    requires first.Some? ==> first.value in g.queues && SizeOf(g, first.value) > 0
    requires total <= 64
    ensures var r := Scan(g, ids, kept, total, first, now);
      r.1.None? ==>
        && (forall id :: id in ids && id !in kept ==> (id in r.0 <==> !Stale(g, id, now)))
        && (forall id :: id in ids && SizeOf(g, id) > 0 ==> Age(g, id, now) <= 1000)
        && total + SumSizes(g, ids) <= 64
    decreases |ids|
  {
    if |ids| > 0 && Scan(g, ids, kept, total, first, now).1.None? {
      var id := ids[0];
      var total' := total + SizeOf(g, id);
      assert SizeOf(g, id) == 0 || (total' <= 64 && Age(g, id, now) <= 1000);
      var kept' := if SizeOf(g, id) == 0 && Age(g, id, now) > 60000 then kept else kept + [id];
      var first' := if SizeOf(g, id) > 0 && first.None? then Some(id) else first;
      var r := Scan(g, ids[1..], kept', total', first', now);
      assert Scan(g, ids, kept, total, first, now) == r;
      ScanChoosesNothing(g, ids[1..], kept', total', first', now);
      forall x | x in ids && x !in kept
        ensures x in r.0 <==> !Stale(g, x, now)
      {
        if x != id {
          assert x in ids[1..];
        }
      }
      assert forall x :: x in ids ==> x == id || x in ids[1..];
    }
  }

  /** The queue heap after `setModified(now)` on the chosen queue, if any. */
  function TouchedQueues(g: Global, chosen: Option<QueueId>, now: i64): map<QueueId, Queue>
    requires chosen.Some? ==> chosen.value in g.queues
  {
    match chosen
    case None => g.queues
    case Some(id) => g.queues[id := g.queues[id].(modified := now)]
  }

  /** Touching a queue keeps the scheduler valid: only a timestamp changes. */
  lemma TouchKeepsValid(g: Global, chosen: Option<QueueId>, now: i64)
    requires Valid(g) && (chosen.Some? ==> chosen.value in g.queues)
    ensures Valid(g.(queues := TouchedQueues(g, chosen, now)))
  {
  }

  /** The active phase of `getNextQueue`, when some active queue has chunks. */
  function ActivePhase(g: Global, now: i64): (r: (Global, Option<QueueId>))
    requires Valid(g) && FirstNonEmpty(g, g.active).Some?
    ensures Valid(r.0)
    ensures r.1 == FirstNonEmpty(g, g.active)
    ensures r.0 == g.(active := r.0.active, queues := TouchedQueues(g, r.1, now))
    ensures |r.0.active| > 0 && r.0.active[0] == r.1.value
    ensures exists k :: 0 <= k < |g.active| && r.0.active == g.active[k..] && forall i :: 0 <= i < k ==> SizeOf(g, g.active[i]) == 0
  {
    var (k, head) := ActiveHead(g, g.active);
    NoDupSuffix(g.active, k);
    TouchKeepsValid(g.(active := g.active[k..]), head, now);
    (g.(active := g.active[k..], queues := TouchedQueues(g, head, now)), head)
  }

  /** The inactive phase of `getNextQueue`, once the active set is drained. */
  function InactivePhase(g: Global, now: i64): (r: (Global, Option<QueueId>))
    requires Valid(g)
    ensures Valid(r.0)
    ensures r.1.Some? ==> r.1.value in r.0.inactive && r.1.value in g.queues && SizeOf(g, r.1.value) > 0
    ensures r.0 == g.(active := [], inactive := r.0.inactive, queues := TouchedQueues(g, r.1, now))
    ensures forall id :: id in r.0.inactive ==> id in g.inactive
    ensures forall id :: id in g.inactive && id !in r.0.inactive ==> Stale(g, id, now)
    ensures r.1.Some? && Age(g, r.1.value, now) <= 1000 ==>
      r.1 == FirstNonEmpty(g, g.inactive) && SumSizes(g, g.inactive) > 64
    ensures r.1.None? ==>
      && (forall id :: id in g.inactive && SizeOf(g, id) > 0 ==> Age(g, id, now) <= 1000)
      && SumSizes(g, g.inactive) <= 64
      && (forall id :: id in g.inactive ==> (id in r.0.inactive <==> !Stale(g, id, now)))
  {
    if |g.inactive| == 0 then
      (g.(active := []), None)
    else
      assert [] + g.inactive == g.inactive;
      var (inactive, chosen) := Scan(g, g.inactive, [], 0, None, now);
      ScanChoosesFirst(g, g.inactive, [], 0, None, now);
      ScanChoosesNothing(g, g.inactive, [], 0, None, now);
      TouchKeepsValid(g.(active := [], inactive := inactive), chosen, now);
      (g.(active := [], inactive := inactive, queues := TouchedQueues(g, chosen, now)), chosen)
  }

  /**
   * `getNextQueue` at time `now`: the first active queue with chunks, after
   * polling the empty ones before it; when the active set runs empty, the
   * inactive scan. The chosen queue's modified time becomes `now` and it stays
   * in its set; nothing but the two sets and that timestamp changes. The
   * result is `None` when nothing qualifies.
   */
  function GetNextQueue(g: Global, now: i64): (r: (Global, Option<QueueId>))
    requires Valid(g)
    ensures Valid(r.0)
    ensures r.1.Some? ==>
      && r.1.value in g.queues && SizeOf(g, r.1.value) > 0
      && (r.1.value in r.0.active || r.1.value in r.0.inactive)
    ensures r.0 == g.(active := r.0.active, inactive := r.0.inactive, queues := TouchedQueues(g, r.1, now))
    ensures FirstNonEmpty(g, g.active).Some? ==> r == ActivePhase(g, now) && r.0.inactive == g.inactive
    ensures FirstNonEmpty(g, g.active).None? ==> r == InactivePhase(g, now) && r.0.active == []
  {
    if FirstNonEmpty(g, g.active).Some? then ActivePhase(g, now)
    else InactivePhase(g, now)
  }

  // ---------------------------------------------------------------------------
  // Completion callbacks

  /** `isDone`: no queue is in either set. */
  function IsDone(g: Global): (b: bool)
    ensures b <==> forall id :: id !in g.active && id !in g.inactive
  {
    assert |g.active| > 0 ==> g.active[0] in g.active;
    assert |g.inactive| > 0 ==> g.inactive[0] in g.inactive;
    |g.active| == 0 && |g.inactive| == 0
  }

  /**
   * `runEmptyTasks`: every pending callback runs once, in registration order,
   * and the pending list is cleared.
   */
  function RunEmptyTasks(g: Global): (r: Global)
    ensures r.runnables == []
    ensures r.fired + r.runnables == g.fired + g.runnables
    ensures r.(fired := g.fired, runnables := g.runnables) == g
  {
    g.(fired := g.fired + g.runnables, runnables := [])
  }

  /** Running the callbacks twice fires nothing more the second time. */
  lemma RunEmptyTasksIdempotent(g: Global)
    ensures RunEmptyTasks(RunEmptyTasks(g)) == RunEmptyTasks(g)
  {
  }

  /**
   * `addEmptyTask`: when both sets are empty, the pending callbacks run and
   * then the new one (if any) runs at once; otherwise the new one is queued.
   * Either way every callback ever registered runs exactly once, in order.
   */
  function AddEmptyTask(g: Global, whenDone: Option<Task>): (r: Global)
    ensures r.fired + r.runnables == g.fired + g.runnables + (if whenDone.Some? then [whenDone.value] else [])
    ensures IsDone(g) ==> r.runnables == []
    ensures !IsDone(g) ==> r.fired == g.fired
    ensures r.(fired := g.fired, runnables := g.runnables) == g
  {
    var extra := if whenDone.Some? then [whenDone.value] else [];
    if IsDone(g) then
      var g1 := RunEmptyTasks(g);
      g1.(fired := g1.fired + extra)
    else g.(runnables := g.runnables + extra)
  }

  // ---------------------------------------------------------------------------
  // SET_TASK

  /** Replacing one known queue by a valid one keeps the scheduler valid. */
  function PutQueue(g: Global, id: QueueId, q: Queue): (r: Global)
    requires Valid(g) && id in g.queues && LocalBlockQueue.Valid(q)
    ensures Valid(r) && id in r.queues && r.queues[id] == q
    ensures r.queues.Keys == g.queues.Keys
    ensures forall other :: other in g.queues && other != id ==> r.queues[other] == g.queues[other]
    ensures r.(queues := g.queues) == g
  {
    g.(queues := g.queues[id := q])
  }

  /**
   * The control flow of SET_TASK's loop, which depends on the queue only
   * through its size: `next()` returns `true` exactly when a chunk was queued
   * and applying it worked (`ok(k)` for the k-th call). The result is the
   * number of `next()` calls, whether the last one returned `false`, and the
   * two timestamps the loop wrote.
   */
  datatype Pumped = Pumped(calls: nat, exhausted: bool, secondLast: i64, lastPeriod: int)

  /**
   * `do { more = queue.next(); if (!more) return; } while ((lastPeriod =
   * (secondLast = now) - last) < free)` on a queue of `size` chunks, where
   * `clock(k)` is the reading after the k-th call. Every call but the last
   * applied its chunk; the loop stops at a failed apply or an empty queue,
   * or with the period at or above `free`.
   */
  function Pump(size: nat, last: i64, secondLast: i64, lastPeriod: int, free: int, clock: nat -> i64, ok: nat -> bool, k: nat): (r: Pumped)
    ensures 1 <= r.calls <= size + 1
    ensures forall j :: k <= j < k + r.calls - 1 ==> ok(j)
    ensures r.exhausted <==> size < r.calls || !ok(k + r.calls - 1)
    ensures !r.exhausted ==> r.lastPeriod >= free
    ensures r.calls > 1 || !r.exhausted ==> r.lastPeriod == Wrap64(clock(k + r.calls - 1 - (if r.exhausted then 1 else 0)) as int - last as int) as int
    decreases size
  {
    if size == 0 || !ok(k) then Pumped(1, true, secondLast, lastPeriod)
    else
      var now := clock(k);
      var period := Wrap64(now as int - last as int) as int;
      if period < free then
        var r := Pump(size - 1, last, now, period, free, clock, ok, k + 1);
        assert k + (r.calls + 1) - 1 == (k + 1) + r.calls - 1;
        assert r.calls == 1 && r.exhausted ==> r.lastPeriod == period;
        r.(calls := r.calls + 1)
      else Pumped(1, false, now, period)
  }

  /** `calls` successive `next()` calls on a queue: the chunks they take off the front. */
  function NextN(q: Queue, calls: nat): (r: Queue)
    requires LocalBlockQueue.Valid(q)
    ensures LocalBlockQueue.Valid(r)
    ensures r.order == q.order[Min(calls, Size(q))..]
    ensures r.world == q.world && r.modified == q.modified
    decreases calls
  {
    if calls == 0 then q
    else
      var q1 := Next(q, true).0;
      if Size(q) == 0 then q1
      else
        var r := NextN(q1, calls - 1);
        assert q.order[1..][Min(calls - 1, Size(q1))..] == q.order[Min(calls, Size(q))..];
        r
  }

  /**
   * `SET_TASK.run(free, queue)` for the queue `id`: the loop above, then,
   * when `next()` reported `false`, the callbacks run if both sets are
   * empty. Returns the number of `next()` calls. Only the drained queue, the
   * two timestamps and the callbacks change.
   */
  function SetTask(g: Global, id: QueueId, free: int, clock: nat -> i64, ok: nat -> bool, k: nat): (r: (Global, nat))
    requires Valid(g) && id in g.queues
    ensures Valid(r.0) && id in r.0.queues && r.1 >= 1
    ensures r.0.queues.Keys == g.queues.Keys
    ensures forall other :: other in g.queues && other != id ==> r.0.queues[other] == g.queues[other]
    ensures r.0.active == g.active && r.0.inactive == g.inactive
    ensures r.0.fired + r.0.runnables == g.fired + g.runnables
    ensures id in g.active || id in g.inactive ==> r.0.fired == g.fired
    ensures r.0.last == g.last && r.0.targetTime == g.targetTime && r.0.nextId == g.nextId
    ensures r.0.queues[id].order == g.queues[id].order[Min(r.1, SizeOf(g, id))..]
    ensures r.0.queues[id].modified == g.queues[id].modified
  {
    var q := g.queues[id];
    var p := Pump(Size(q), g.last, g.secondLast, g.lastPeriod, free, clock, ok, k);
    var g1 := PutQueue(g, id, NextN(q, p.calls)).(secondLast := p.secondLast, lastPeriod := p.lastPeriod);
    if p.exhausted && IsDone(g1) then (RunEmptyTasks(g1), p.calls) else (g1, p.calls)
  }

  // ---------------------------------------------------------------------------
  // The repeating task

  datatype TickOutcome =
    | Idle                              // both sets empty: callbacks ran
    | Lagging                           // the previous run overran: skipped
    | NoQueue                           // `getNextQueue` found nothing
    | OffMainThread(error: Throwable)   // placement attempted off the main thread
    | Placed(calls: nat)                // SET_TASK ran with this many `next()` calls

  /**
   * The budget `free` of one tick: `50 + min((50 + last) - now0, secondLast - now1)`
   * in `long` arithmetic, where `now0` and `now1` are two clock readings.
   */
  function Budget(last: i64, secondLast: i64, now0: i64, now1: i64): i64 {
    Wrap64(50 + Min(Wrap64(Wrap64(50 + last as int) as int - now0 as int) as int, Wrap64(secondLast as int - now1 as int) as int))
  }

  /**
   * One run of the repeating task scheduled by `runTask`. `clock(0)` and
   * `clock(1)` are the readings taken for the budget, `clock(2)` the one in
   * `getNextQueue`, and `clock(3)`, `clock(4)`, … those of SET_TASK;
   * `onMain` says whether the repeating task runs on the server's main thread.
   */
  function Tick(g: Global, clock: nat -> i64, ok: nat -> bool, onMain: bool): (r: (Global, TickOutcome))
    requires Valid(g)
    ensures Valid(r.0)
    ensures r.1.Idle? <==> IsDone(g)
    ensures r.1.Idle? ==> r.0 == RunEmptyTasks(g).(lastPeriod := 0)
    ensures r.1.Lagging? <==> !IsDone(g) && g.lastPeriod > g.targetTime
    ensures r.1.Lagging? ==> r.0 == g.(lastPeriod := g.lastPeriod - g.targetTime)
    ensures r.1.OffMainThread? ==> !onMain && r.1.error.IllegalStateException?
    ensures (r.1.NoQueue? || r.1.OffMainThread? || r.1.Placed?) ==> r.0.last == clock(0)
    ensures r.1.Placed? ==> onMain && r.1.calls >= 1
    ensures r.0.fired + r.0.runnables == g.fired + g.runnables
    ensures r.0.fired != g.fired ==> r.1.Idle? && IsDone(r.0)
    ensures r.0.targetTime == g.targetTime
  {
    if IsDone(g) then
      (RunEmptyTasks(g).(lastPeriod := 0), Idle)
    else if g.lastPeriod > g.targetTime then
      (g.(lastPeriod := g.lastPeriod - g.targetTime), Lagging)
    else
      var free := Budget(g.last, g.secondLast, clock(0), clock(1));
      var (g1, chosen) := GetNextQueue(g.(last := clock(0)), clock(2));
      if chosen.None? then (g1, NoQueue)
      else if !onMain then
        (g1, OffMainThread(IllegalStateException("It shouldn't be possible for placement to occur off the main thread")))
      else
        var (g2, calls) := SetTask(g1, chosen.value, free as int, clock, ok, 3);
        (g2, Placed(calls))
  }

  /**
   * A lagging scheduler with a positive target time skips ticks until
   * `lastPeriod` is back within the target; each skipped tick lowers it.
   */
  lemma LaggingRecovers(g: Global, clock: nat -> i64, ok: nat -> bool, onMain: bool)
    requires Valid(g) && g.targetTime > 0 && Tick(g, clock, ok, onMain).1.Lagging?
    ensures Tick(g, clock, ok, onMain).0.lastPeriod < g.lastPeriod
    ensures Tick(g, clock, ok, onMain).0.lastPeriod > 0
  {
  }

  /**
   * With every apply succeeding and every measured period below the budget,
   * SET_TASK empties the queue: it stops only once `next()` finds nothing.
   */
  lemma PumpDrainsWhenUnhurried(size: nat, last: i64, secondLast: i64, lastPeriod: int, free: int, clock: nat -> i64, ok: nat -> bool, k: nat)
    requires forall j :: k <= j ==> ok(j)
    requires forall j :: k <= j ==> Wrap64(clock(j) as int - last as int) as int < free
    ensures Pump(size, last, secondLast, lastPeriod, free, clock, ok, k).exhausted
    ensures Pump(size, last, secondLast, lastPeriod, free, clock, ok, k).calls == size + 1
  {
  }
}
