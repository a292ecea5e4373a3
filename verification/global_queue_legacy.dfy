/**
 * The older variant of the scheduler (`queue.GlobalBlockQueue`). It shares
 * the state, `getNextQueue`, SET_TASK and the repeating task with the newer
 * one, and adds: a `stop` that clears the running flag, boolean results for
 * `runTask`, `enqueue` and `addEmptyTask`, stage queries, `dequeue`, a list
 * of all queues, and `flush`, which drains one queue synchronously.
 */
module GlobalQueueLegacy {
  import opened Wrappers
  import opened JavaLang
  import LocalBlockQueue
  import opened GlobalQueue

  /**
   * `runTask`: `true` exactly when this call registered the repeating task,
   * that is, when the scheduler was not running.
   */
  function RunTaskLegacy(s: Scheduler): (r: (Scheduler, bool))
    ensures r.0.running && r.0.state == s.state
    ensures r.1 <==> !s.running
    ensures r.0.repeating == s.repeating + (if r.1 then 1 else 0)
  {
    (RunTask(s), !s.running)
  }

  /**
   * `stop`: `false` when not running; otherwise clears the flag and returns
   * `true`. The repeating task already registered is not cancelled and the
   * state is untouched.
   */
  function Stop(s: Scheduler): (r: (Scheduler, bool))
    ensures !r.0.running
    ensures r.1 <==> s.running
    ensures r.0.state == s.state && r.0.repeating == s.repeating
  {
    if !s.running then (s, false) else (s.(running := false), true)
  }

  /**
   * Stopping and starting again registers one more repeating task next to
   * those already registered, which never stopped: all go on ticking on the
   * same state.
   */
  lemma StopThenRunTaskTicksTwice(s: Scheduler)
    ensures var s3 := RunTaskLegacy(Stop(s).0);
      s3.1 && s3.0.running && s3.0.state == s.state && s3.0.repeating == s.repeating + 1
  {
  }

  datatype QueueStage = INACTIVE | ACTIVE | NONE

  /** `getStage`: active takes precedence over inactive. */
  function GetStage(g: Global, id: QueueId): (r: QueueStage)
    ensures r == ACTIVE <==> id in g.active
    ensures r == INACTIVE <==> id !in g.active && id in g.inactive
    ensures r == NONE <==> id !in g.active && id !in g.inactive
  {
    if id in g.active then ACTIVE
    else if id in g.inactive then INACTIVE
    else NONE
  }

  /** `isStage`: membership of the set the stage names (none: of neither). */
  function IsStage(g: Global, id: QueueId, stage: QueueStage): (r: bool)
    ensures stage == NONE ==> (r <==> id !in g.active && id !in g.inactive)
  {
    match stage
    case ACTIVE => id in g.active
    case INACTIVE => id in g.inactive
    case NONE => id !in g.active && id !in g.inactive
  }

  /**
   * The two stage queries agree, except that a queue in both sets is
   * `ACTIVE` for `getStage` and also `INACTIVE` for `isStage`; a valid
   * scheduler reached through `enqueue` never has one in both.
   */
  lemma StageQueriesAgree(g: Global, id: QueueId, stage: QueueStage)
    ensures IsStage(g, id, GetStage(g, id))
    ensures !(id in g.active && id in g.inactive) ==> (IsStage(g, id, stage) <==> GetStage(g, id) == stage)
  {
  }

  /**
   * `enqueue` with a result: the state change of the newer variant, and
   * `true` when the queue was taken out of the inactive set or added to
   * the active one.
   */
  function EnqueueLegacy(g: Global, id: QueueId): (r: (Global, bool))
    requires Valid(g) && id in g.queues
    ensures Valid(r.0)
    ensures r.0 == Enqueue(g, id)
    ensures r.1 <==> id in g.inactive || (SizeOf(g, id) > 0 && id !in g.active)
    ensures r.1 <==> r.0.inactive != g.inactive || r.0.active != g.active
  {
    var inactive := RemoveFirst(g.inactive, id);
    var removed := id in g.inactive;
    var g1 := g.(inactive := inactive);
    if SizeOf(g, id) > 0 && id !in g.active then
      LocalBlockQueue.NoDupSnoc(g.active, id);
      (g1.(active := g.active + [id]), true)
    else
      assert removed ==> |inactive| < |g.inactive|;
      (g1, removed)
  }

  /**
   * `DelegateLocalBlockQueue.enqueue`: enqueues the parent, whose identity is
   * given; without a parent, `false`.
   */
  function EnqueueThrough(g: Global, parent: Option<QueueId>): (r: (Global, bool))
    requires Valid(g) && (parent.Some? ==> parent.value in g.queues)
    ensures Valid(r.0)
    ensures parent.None? ==> r == (g, false)
    ensures parent.Some? ==> r == EnqueueLegacy(g, parent.value)
  {
    match parent
    case None => (g, false)
    case Some(p) => EnqueueLegacy(g, p)
  }

  /** `dequeue`: the queue leaves both sets; nothing else changes. */
  function Dequeue(g: Global, id: QueueId): (r: Global)
    requires Valid(g)
    ensures Valid(r)
    ensures GetStage(r, id) == NONE
    ensures forall other :: other != id ==> (other in r.active <==> other in g.active) && (other in r.inactive <==> other in g.inactive)
    ensures r.queues == g.queues && r.runnables == g.runnables && r.fired == g.fired
  {
    g.(inactive := RemoveFirst(g.inactive, id), active := RemoveFirst(g.active, id))
  }

  /** `getAllQueues`: the inactive queues, then the active ones. */
  function GetAllQueues(g: Global): (r: seq<QueueId>)
    ensures |r| == |g.inactive| + |g.active|
    ensures forall id :: id in r <==> GetStage(g, id) != NONE
    ensures r[..|g.inactive|] == g.inactive && r[|g.inactive|..] == g.active
  {
    g.inactive + g.active
  }

  /**
   * `addEmptyTask` with a result: the state change of the newer variant,
   * and `true` exactly when both sets were empty, so that the callbacks ran
   * at once.
   */
  function AddEmptyTaskLegacy(g: Global, whenDone: Option<Task>): (r: (Global, bool))
    ensures r.0 == AddEmptyTask(g, whenDone)
    ensures r.1 <==> IsDone(g)
    ensures r.1 ==> r.0.runnables == [] && r.0.fired == g.fired + g.runnables + (if whenDone.Some? then [whenDone.value] else [])
  {
    (AddEmptyTask(g, whenDone), IsDone(g))
  }

  /**
   * `flush(queue)`: nothing for a null queue; on the main thread an
   * illegal-state exception before anything runs (so the queue is not
   * dequeued); otherwise SET_TASK with the budget `Long.MAX_VALUE`, then the
   * queue leaves both sets whatever happened.
   */
  function Flush(g: Global, queue: Option<QueueId>, onMain: bool, clock: nat -> i64, ok: nat -> bool): (r: Result<Global, Throwable>)
    requires Valid(g) && (queue.Some? ==> queue.value in g.queues)
    ensures queue.None? ==> r == Ok(g)
    ensures queue.Some? && onMain ==> r.Err? && r.error.IllegalStateException?
    ensures queue.Some? && !onMain ==> r.Ok? && Valid(r.value) && GetStage(r.value, queue.value) == NONE
    ensures r.Ok? ==> r.value.fired + r.value.runnables == g.fired + g.runnables
    ensures r.Ok? ==> r.value.queues.Keys == g.queues.Keys
  {
    match queue
    case None => Ok(g)
    case Some(id) =>
      if onMain then Err(IllegalStateException("Cannot flush on the main thread"))
      else
        var (g1, _) := SetTask(g, id, LONG_MAX, clock, ok, 0);
        Ok(Dequeue(g1, id))
  }

  /**
   * Flushing off the main thread empties the queue when every chunk applies
   * and no measured period reaches `Long.MAX_VALUE`.
   */
  lemma FlushEmptiesQueue(g: Global, id: QueueId, clock: nat -> i64, ok: nat -> bool)
    requires Valid(g) && id in g.queues
    requires forall j :: ok(j)
    requires forall j :: Wrap64(clock(j) as int - g.last as int) as int < LONG_MAX
    ensures Flush(g, Some(id), false, clock, ok).Ok?
    ensures id in Flush(g, Some(id), false, clock, ok).value.queues
    ensures SizeOf(Flush(g, Some(id), false, clock, ok).value, id) == 0
  {
    var size := SizeOf(g, id);
    PumpDrainsWhenUnhurried(size, g.last, g.secondLast, g.lastPeriod, LONG_MAX, clock, ok, 0);
    var (g1, calls) := SetTask(g, id, LONG_MAX, clock, ok, 0);
    assert calls == size + 1;
    assert g1.queues[id].order == [];
  }
}
