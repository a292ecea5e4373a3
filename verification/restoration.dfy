/**
 * Restoring a change set (`QueueRestorationHandler.restore`).
 *
 * Only a distinct change set (at most one change per block position) can be
 * restored. For every change whose subject has type BLOCK, the subject is cast
 * to a block subject, a restoration change is logged (reason `RESTORATION`, the
 * given source, the block as it is now as `from`, the recorded `from` block as
 * `to`), and the recorded `from` block with its old block-entity tag is written
 * into a fresh local queue that is not auto-queued. The queue is then
 * enqueued, and only after that is the completion task registered with the
 * scheduler. Subjects of any other type are skipped. A restoration subject
 * built with type BLOCK passes the type test and then fails the cast, so the
 * first loop throws a class-cast exception and nothing is logged or queued.
 *
 * The world's current block at a location, the logger's `logChanges` and the
 * wall clock are parameters: `current(l)` is the block at `l`, `clock(i)` the
 * time the i-th restoration change's builder was created, and `queueTime`
 * the time the local queue was created.
 */
module Restoration {
  import opened Wrappers
  import opened JavaLang
  import opened Geometry
  import opened Blocks
  import opened Subjects
  import opened ChangeModel
  import opened ChangeSet
  import LocalBlockQueue
  import opened GlobalQueue

  /** The test both loops of `restore` make: the change's subject has type BLOCK. */
  predicate TypedBlock(c: Change) {
    c.subject.Some? && GetType(c.subject.value) == BLOCK
  }

  /** A change whose subject the cast `(BlockSubject) subject` accepts: a block subject. */
  predicate IsBlockChange(c: Change) {
    c.subject.Some? && c.subject.value.Block?
  }

  /** The cast after the type test succeeds: a subject of type BLOCK is a block subject. */
  predicate Castable(c: Change) {
    TypedBlock(c) ==> c.subject.value.Block?
  }

  /** Every change has a subject, and every subject of type BLOCK survives the cast: the first loop gets through. */
  predicate PassesFirstLoop(cs: seq<Change>) {
    forall i :: 0 <= i < |cs| ==> cs[i].subject.Some? && Castable(cs[i])
  }

  /** A subject, when present, is as its constructor built it. */
  predicate SubjectValid(c: Change) {
    c.subject.Some? ==> c.subject.value.Valid()
  }

  /**
   * Every change has a subject, as its constructor built it, that survives
   * the cast: the changes `restore` gets through its first loop with.
   */
  predicate HasSubjects(cs: seq<Change>) {
    forall i :: 0 <= i < |cs| ==> cs[i].subject.Some? && SubjectValid(cs[i]) && Castable(cs[i])
  }

  /** The changes of `cs` whose subject has type BLOCK, in order: the changes both loops of `restore` act on. */
  function BlockChanges(cs: seq<Change>): (r: seq<Change>)
    ensures |r| <= |cs|
    ensures forall i :: 0 <= i < |r| ==> TypedBlock(r[i])
    ensures (forall j :: 0 <= j < |cs| ==> Castable(cs[j])) ==> forall i :: 0 <= i < |r| ==> IsBlockChange(r[i])
    ensures (forall j :: 0 <= j < |cs| ==> SubjectValid(cs[j])) ==> forall i :: 0 <= i < |r| ==> SubjectValid(r[i])
  {
    if |cs| == 0 then []
    else
      var last := cs[|cs| - 1];
      var init := BlockChanges(cs[..|cs| - 1]);
      var r := init + (if TypedBlock(last) then [last] else []);
      assert forall i :: 0 <= i < |init| ==> r[i] == init[i];
      assert forall j :: 0 <= j < |cs| - 1 ==> cs[j] == cs[..|cs| - 1][j];
      r
  }

  /** The block changes are exactly the changes whose subject has type BLOCK. */
  lemma {:induction false} BlockChangesMembers(cs: seq<Change>)
    ensures forall c :: c in BlockChanges(cs) <==> c in cs && TypedBlock(c)
  {
    if |cs| > 0 {
      var last := cs[|cs| - 1];
      assert forall c :: c in cs <==> c in cs[..|cs| - 1] || c == last;
      BlockChangesMembers(cs[..|cs| - 1]);
    }
  }

  /**
   * The restoration change for block change `c`, stamped `time`: at the same
   * location, from `source`, reason `RESTORATION`, and a block subject from
   * the current block to the recorded `from` block (without a tag).
   */
  function Restoring(c: Change, source: ChangeSource, time: i64, current: Location -> BlockWrapper): (r: Change)
    requires IsBlockChange(c)
    ensures r.location == c.location && r.source == source && r.reason == RESTORATION && r.timestamp == time
    ensures r.subject.Some? && r.subject.value.Block?
    ensures r.subject.value.block.to == c.subject.value.block.from && !r.subject.value.block.newFull
  {
    var subject := BlockSubjectOf(current(c.location), WrapperOf(c.subject.value.block.from));
    Change(source, c.location, Some(Block(subject)), RESTORATION, time)
  }

  /**
   * The first loop, run through `TaskManager.sync`: a restoration change,
   * built with the change builder, for every change whose subject has type
   * BLOCK, skipping other types. A change without a subject makes
   * `getSubject().getType()` throw a null-pointer exception; a restoration
   * subject of type BLOCK makes the cast throw a class-cast exception.
   */
  function RestorationChanges(cs: seq<Change>, source: ChangeSource, clock: nat -> i64, current: Location -> BlockWrapper): (r: Result<seq<Change>, Throwable>)
    ensures r.Ok? <==> PassesFirstLoop(cs)
    ensures r.Err? ==> r.error.NullPointerException? || r.error.ClassCastException?
    ensures r.Err? && (forall i :: 0 <= i < |cs| ==> cs[i].subject.Some?) ==> r.error.ClassCastException?
    ensures r.Err? && (forall i :: 0 <= i < |cs| ==> Castable(cs[i])) ==> r.error.NullPointerException?
  {
    if |cs| == 0 then Ok([])
    else
      var prefix, c := cs[..|cs| - 1], cs[|cs| - 1];
      assert forall i :: 0 <= i < |prefix| ==> cs[i] == prefix[i];
      var init := RestorationChanges(prefix, source, clock, current);
      if init.Err? then init
      else if c.subject.None? then Err(NullPointerException("subject"))
      else if GetType(c.subject.value) != BLOCK then init
      else if c.subject.value.Restoration? then Err(ClassCastException("RestorationSubject cannot be cast to BlockSubject"))
      else Ok(init.value + [BuildRestoring(c, source, clock(|init.value|), current).value])
  }

  /** The restoration changes for block changes `bs`, the i-th stamped with the i-th clock reading. */
  function RestoringAll(bs: seq<Change>, source: ChangeSource, clock: nat -> i64, current: Location -> BlockWrapper): (r: seq<Change>)
    requires forall i :: 0 <= i < |bs| ==> IsBlockChange(bs[i])
    ensures |r| == |bs|
    ensures forall i :: 0 <= i < |bs| ==> r[i] == Restoring(bs[i], source, clock(i), current)
  {
    if |bs| == 0 then []
    else
      var init := RestoringAll(bs[..|bs| - 1], source, clock, current);
      var r := init + [Restoring(bs[|bs| - 1], source, clock(|bs| - 1), current)];
      assert forall i :: 0 <= i < |bs| - 1 ==> r[i] == init[i] && bs[i] == bs[..|bs| - 1][i];
      r
  }

  /**
   * The first loop yields one restoration change per block change, in order,
   * the i-th stamped with the i-th clock reading.
   */
  lemma {:induction false} RestorationChangesRestore(cs: seq<Change>, source: ChangeSource, clock: nat -> i64, current: Location -> BlockWrapper)
    requires PassesFirstLoop(cs)
    ensures RestorationChanges(cs, source, clock, current).value == RestoringAll(BlockChanges(cs), source, clock, current)
  {
    if |cs| > 0 {
      var prefix, c := cs[..|cs| - 1], cs[|cs| - 1];
      RestorationChangesSnoc(cs, source, clock, current);
      RestorationChangesRestore(prefix, source, clock, current);
      if IsBlockChange(c) {
        RestoringAllSnoc(BlockChanges(prefix), c, source, clock, current);
      }
    }
  }

  /** The first loop on one more change: the block changes and their restorations grow by at most that change. */
  lemma RestorationChangesSnoc(cs: seq<Change>, source: ChangeSource, clock: nat -> i64, current: Location -> BlockWrapper)
    requires |cs| > 0 && PassesFirstLoop(cs)
    ensures var prefix, c := cs[..|cs| - 1], cs[|cs| - 1];
      && RestorationChanges(prefix, source, clock, current).Ok?
      && BlockChanges(cs) == BlockChanges(prefix) + (if IsBlockChange(c) then [c] else [])
      && var init := RestorationChanges(prefix, source, clock, current).value;
         RestorationChanges(cs, source, clock, current).value
           == init + (if IsBlockChange(c) then [Restoring(c, source, clock(|init|), current)] else [])
  {
    var prefix := cs[..|cs| - 1];
    assert forall i :: 0 <= i < |prefix| ==> cs[i] == prefix[i];
  }

  /** Restoring one more block change appends its restoration, stamped with the next clock reading. */
  lemma RestoringAllSnoc(bs: seq<Change>, c: Change, source: ChangeSource, clock: nat -> i64, current: Location -> BlockWrapper)
    requires forall i :: 0 <= i < |bs| ==> IsBlockChange(bs[i])
    requires IsBlockChange(c)
    ensures RestoringAll(bs + [c], source, clock, current) == RestoringAll(bs, source, clock, current) + [Restoring(c, source, clock(|bs|), current)]
  {
    var l, r := RestoringAll(bs + [c], source, clock, current), RestoringAll(bs, source, clock, current) + [Restoring(c, source, clock(|bs|), current)];
    assert forall i :: 0 <= i < |bs| ==> (bs + [c])[i] == bs[i];
    assert forall i :: 0 <= i < |l| ==> l[i] == r[i];
  }

  /** The change builder chain of the first loop, for one block change: it always builds `Restoring`. */
  function BuildRestoring(c: Change, source: ChangeSource, time: i64, current: Location -> BlockWrapper): (r: Result<Change, Throwable>)
    requires IsBlockChange(c)
    ensures r == Ok(Restoring(c, source, time, current))
  {
    var subject := Block(BlockSubjectOf(current(c.location), WrapperOf(c.subject.value.block.from)));
    Build(WithSubject(WithReason(WithSource(AtLocation(NewBuilder(time), c.location), source), RESTORATION), subject))
  }

  /** The write the second loop makes for block change `c`: its `from` block and serialised old tag, at its position. */
  function WriteOf(c: Change): (w: LocalBlockQueue.Write)
    requires IsBlockChange(c) && c.subject.value.Valid()
  {
    var b := c.subject.value.block;
    LocalBlockQueue.Write(c.location.x, c.location.y, c.location.z, WrapperOfBytes(b.from, SerializeOldState(b)))
  }

  /**
   * The second loop: one `setBlock` per change whose subject has type BLOCK,
   * skipping other types. It only runs once the first loop has met every
   * subject and cast every subject of type BLOCK, so here the cast succeeds.
   */
  function QueuedWrites(cs: seq<Change>): (r: seq<LocalBlockQueue.Write>)
    requires HasSubjects(cs)
    ensures |r| == |BlockChanges(cs)|
    ensures forall i :: 0 <= i < |r| ==> r[i] == WriteOf(BlockChanges(cs)[i])
  {
    if |cs| == 0 then []
    else
      var c := cs[|cs| - 1];
      if GetType(c.subject.value) != BLOCK then QueuedWrites(cs[..|cs| - 1])
      else QueuedWrites(cs[..|cs| - 1]) + [WriteOf(c)]
  }

  /**
   * The queue part of `restore`: a fresh queue in `world` that is not
   * auto-queued, filled by the second loop and then enqueued, so that it is
   * active exactly when some write landed.
   */
  function FillAndEnqueue(g: Global, world: string, cs: seq<Change>, queueTime: i64): (r: (Global, QueueId))
    requires Valid(g) && HasSubjects(cs)
    ensures var (s, id) := r;
      && Valid(s)
      && id !in g.queues && id in s.queues
      && s.queues[id] == LocalBlockQueue.SetBlocks(LocalBlockQueue.NewQueue(world, queueTime), QueuedWrites(cs))
      && id !in s.inactive
      && (id in s.active <==> LocalBlockQueue.Size(s.queues[id]) > 0)
      && (forall other :: other in g.queues ==> other in s.queues && s.queues[other] == g.queues[other])
      && (forall other :: other != id ==> (other in s.active <==> other in g.active) && (other in s.inactive <==> other in g.inactive))
      && s.runnables == g.runnables && s.fired == g.fired
  {
    var (g1, id) := GetNewQueue(g, world, false, queueTime);
    var q := LocalBlockQueue.SetBlocks(g1.queues[id], QueuedWrites(cs));
    var g2 := g1.(queues := g1.queues[id := q]);
    (Enqueue(g2, id), id)
  }

  /** What a restoration leaves behind: the changes handed to the logger, the scheduler, and the new queue's id. */
  datatype Restored = Restored(logged: seq<Change>, scheduler: Global, queue: QueueId)

  /**
   * `restore(changes, source, completionTask)`: an illegal-argument exception
   * for a change set that is not distinct, before anything is logged or
   * queued; the first loop's null-pointer or class-cast exception, likewise
   * before anything is logged or queued; otherwise the restoration changes are logged, a fresh queue (not
   * auto-queued) in the change set's world receives the writes and is
   * enqueued, and then the completion task is added.
   */
  function Restore(g: Global, changes: Changes, source: ChangeSource, clock: nat -> i64, queueTime: i64,
                   current: Location -> BlockWrapper, completion: Task): (r: Result<Restored, Throwable>)
    requires Valid(g)
    requires forall i :: 0 <= i < |changes.entries| ==> SubjectValid(changes.entries[i])
    ensures !Distinct(changes) ==> r.Err? && r.error.IllegalArgumentException?
    ensures Distinct(changes) ==> (r.Ok? <==> HasSubjects(changes.entries))
    ensures Distinct(changes) && r.Err? ==> r.error.NullPointerException? || r.error.ClassCastException?
    ensures Distinct(changes) && r.Err? && (forall i :: 0 <= i < |changes.entries| ==> changes.entries[i].subject.Some?) ==>
      r.error.ClassCastException?
    ensures r.Ok? ==> r.value.logged == RestorationChanges(changes.entries, source, clock, current).value
    ensures r.Ok? ==>
      var (s, id) := FillAndEnqueue(g, changes.world, changes.entries, queueTime);
      && r.value.queue == id
      && r.value.scheduler == AddEmptyTask(s, Some(completion))
      && r.value.scheduler.fired + r.value.scheduler.runnables == g.fired + g.runnables + [completion]
  {
    if !Distinct(changes) then Err(IllegalArgumentException("Only distinct change sets can be restored to"))
    else
      var logged :- RestorationChanges(GetChanges(changes), source, clock, current);
      var (s, id) := FillAndEnqueue(g, changes.world, GetChanges(changes), queueTime);
      Ok(Restored(logged, AddEmptyTask(s, Some(completion)), id))
  }
}
