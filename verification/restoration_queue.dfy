/**
 * What the queue filled by `QueueRestorationHandler.restore` holds, and when
 * the completion task runs: every block change at a height the queue accepts
 * leaves its recorded `from` block (with its old tag) pending at its
 * position, nothing else is pending, and the completion task fires at once
 * only when the scheduler was idle and no write landed.
 */
module RestorationQueue {
  import opened Wrappers
  import opened JavaLang
  import opened Geometry
  import opened Blocks
  import opened ChangeModel
  import opened ChangeSet
  import LocalBlockQueue
  import opened GlobalQueue
  import opened Restoration

  /** The data a write of block change `c` puts in the queue: the recorded `from` block with its old tag. */
  function OldBlock(c: Change): (w: BlockWrapper)
    requires IsBlockChange(c) && c.subject.value.Valid()
    ensures w.blockData == c.subject.value.block.from
    ensures c.subject.value.block.oldFull ==> w.blockState == c.subject.value.block.oldState
    ensures !c.subject.value.block.oldFull ==> w.blockState.IsEmpty()
  {
    WriteOf(c).data
  }

  /** The second loop's writes grow by the last change's write, if it is a block change. */
  lemma QueuedWritesSnoc(cs: seq<Change>)
    requires HasSubjects(cs) && |cs| > 0
    ensures var init, last := cs[..|cs| - 1], cs[|cs| - 1];
      HasSubjects(init) &&
      QueuedWrites(cs) == QueuedWrites(init) + if IsBlockChange(last) then [WriteOf(last)] else []
  {
  }

  /** One step of the second loop: the last change's write, if any, shadows its own position only. */
  lemma FillStep(q: LocalBlockQueue.Queue, cs: seq<Change>, x: i32, y: i32, z: i32)
    requires LocalBlockQueue.Valid(q) && HasSubjects(cs) && |cs| > 0
    ensures var last := cs[|cs| - 1];
      LocalBlockQueue.BlockAt(LocalBlockQueue.SetBlocks(q, QueuedWrites(cs)), x, y, z)
        == if IsBlockChange(last) && 0 <= last.location.y <= 255 && Key(last) == Vector(x, y, z) then Some(OldBlock(last))
           else LocalBlockQueue.BlockAt(LocalBlockQueue.SetBlocks(q, QueuedWrites(cs[..|cs| - 1])), x, y, z)
  {
    var init, last := cs[..|cs| - 1], cs[|cs| - 1];
    assert HasSubjects(init);
    var ws := QueuedWrites(init);
    QueuedWritesSnoc(cs);
    if IsBlockChange(last) {
      var w := WriteOf(last);
      assert (ws + [w])[..|ws|] == ws;
      if 0 <= w.y <= 255 {
        LocalBlockQueue.SetBlockThenRead(LocalBlockQueue.SetBlocks(q, ws), w.x, w.y, w.z, w.data, x, y, z);
      }
    }
  }

  /**
   * With positions distinct, every block change at a height the queue
   * accepts leaves its old block pending at its position.
   */
  lemma {:induction false} QueuedBlockLands(q: LocalBlockQueue.Queue, cs: seq<Change>, k: nat)
    requires LocalBlockQueue.Valid(q) && HasSubjects(cs) && DistinctKeys(cs)
    requires k < |cs| && IsBlockChange(cs[k]) && 0 <= cs[k].location.y <= 255
    ensures var l := cs[k].location;
      LocalBlockQueue.BlockAt(LocalBlockQueue.SetBlocks(q, QueuedWrites(cs)), l.x, l.y, l.z) == Some(OldBlock(cs[k]))
  {
    var l := cs[k].location;
    FillStep(q, cs, l.x, l.y, l.z);
    if k < |cs| - 1 {
      assert Key(cs[k]) != Key(cs[|cs| - 1]);
      PrefixKeepsSubjectsAndKeys(cs);
      QueuedBlockLands(q, cs[..|cs| - 1], k);
    }
  }

  /** Dropping the last change keeps the subjects present and the positions distinct. */
  lemma PrefixKeepsSubjectsAndKeys(cs: seq<Change>)
    requires HasSubjects(cs) && DistinctKeys(cs) && |cs| > 0
    ensures HasSubjects(cs[..|cs| - 1]) && DistinctKeys(cs[..|cs| - 1])
    ensures forall i :: 0 <= i < |cs| - 1 ==> cs[..|cs| - 1][i] == cs[i]
  {
  }

  /** A position no block change names reads in the filled queue as it read before. */
  lemma {:induction false} UnnamedPositionUntouched(q: LocalBlockQueue.Queue, cs: seq<Change>, x: i32, y: i32, z: i32)
    requires LocalBlockQueue.Valid(q) && HasSubjects(cs)
    requires forall i :: 0 <= i < |cs| && IsBlockChange(cs[i]) ==> Key(cs[i]) != Vector(x, y, z)
    ensures LocalBlockQueue.BlockAt(LocalBlockQueue.SetBlocks(q, QueuedWrites(cs)), x, y, z) == LocalBlockQueue.BlockAt(q, x, y, z)
  {
    if |cs| > 0 {
      var init := cs[..|cs| - 1];
      assert HasSubjects(init);
      FillStep(q, cs, x, y, z);
      UnnamedPositionUntouched(q, init, x, y, z);
    }
  }

  /** A block change at a height the queue accepts: its write lands. */
  predicate Lands(c: Change) {
    IsBlockChange(c) && 0 <= c.location.y <= 255
  }

  /** When no write lands, the second loop leaves the queue as it was. */
  lemma {:induction false} NothingLandsKeepsQueue(q: LocalBlockQueue.Queue, cs: seq<Change>)
    requires LocalBlockQueue.Valid(q) && HasSubjects(cs)
    requires forall i :: 0 <= i < |cs| ==> !Lands(cs[i])
    ensures LocalBlockQueue.SetBlocks(q, QueuedWrites(cs)) == q
  {
    if |cs| > 0 {
      var init, last := cs[..|cs| - 1], cs[|cs| - 1];
      QueuedWritesSnoc(cs);
      NothingLandsKeepsQueue(q, init);
      if IsBlockChange(last) {
        var ws := QueuedWrites(init);
        assert (ws + [WriteOf(last)])[..|ws|] == ws;
      }
    }
  }

  /**
   * The queue filled by a `restore` that succeeds (a distinct change set whose
   * subjects all pass both loops), as the scheduler holds it afterwards.
   */
  function RestoredQueue(g: Global, changes: Changes, source: ChangeSource, clock: nat -> i64, queueTime: i64,
                         current: Location -> BlockWrapper, completion: Task): (q: LocalBlockQueue.Queue)
    requires Valid(g) && Distinct(changes) && HasSubjects(changes.entries)
    ensures LocalBlockQueue.Valid(q)
    ensures q == LocalBlockQueue.SetBlocks(LocalBlockQueue.NewQueue(changes.world, queueTime), QueuedWrites(changes.entries))
  {
    var r := Restore(g, changes, source, clock, queueTime, current, completion).value;
    r.scheduler.queues[r.queue]
  }

  /** The restored queue holds, at the position of every block change the queue accepts, that change's old block. */
  lemma RestoredQueueHoldsOldBlocks(g: Global, changes: Changes, source: ChangeSource, clock: nat -> i64, queueTime: i64,
                                    current: Location -> BlockWrapper, completion: Task, k: nat)
    requires Valid(g) && Distinct(changes) && HasSubjects(changes.entries)
    requires k < |changes.entries| && Lands(changes.entries[k])
    ensures var q := RestoredQueue(g, changes, source, clock, queueTime, current, completion);
      var l := changes.entries[k].location;
      LocalBlockQueue.BlockAt(q, l.x, l.y, l.z) == Some(OldBlock(changes.entries[k]))
  {
    QueuedBlockLands(LocalBlockQueue.NewQueue(changes.world, queueTime), changes.entries, k);
  }

  /** The restored queue holds nothing at a position no block change names. */
  lemma RestoredQueueEmptyElsewhere(g: Global, changes: Changes, source: ChangeSource, clock: nat -> i64, queueTime: i64,
                                    current: Location -> BlockWrapper, completion: Task, x: i32, y: i32, z: i32)
    requires Valid(g) && Distinct(changes) && HasSubjects(changes.entries)
    requires forall k :: 0 <= k < |changes.entries| && IsBlockChange(changes.entries[k]) ==> Key(changes.entries[k]) != Vector(x, y, z)
    ensures LocalBlockQueue.BlockAt(RestoredQueue(g, changes, source, clock, queueTime, current, completion), x, y, z).None?
  {
    FilledQueueEmptyElsewhere(changes.world, queueTime, changes.entries, x, y, z);
  }

  /** A fresh queue filled with the writes of `cs` holds nothing at a position no block change names. */
  lemma FilledQueueEmptyElsewhere(world: string, queueTime: i64, cs: seq<Change>, x: i32, y: i32, z: i32)
    requires HasSubjects(cs)
    requires forall k :: 0 <= k < |cs| && IsBlockChange(cs[k]) ==> Key(cs[k]) != Vector(x, y, z)
    ensures LocalBlockQueue.BlockAt(LocalBlockQueue.SetBlocks(LocalBlockQueue.NewQueue(world, queueTime), QueuedWrites(cs)), x, y, z).None?
  {
    var empty := LocalBlockQueue.NewQueue(world, queueTime);
    assert LocalBlockQueue.BlockAt(empty, x, y, z).None?;
    UnnamedPositionUntouched(empty, cs, x, y, z);
  }

  /**
   * The completion task runs at once exactly when the scheduler was idle and
   * no write landed; otherwise it waits behind the restored queue (or the
   * queues already scheduled), and nothing fires.
   */
  lemma CompletionTiming(g: Global, changes: Changes, source: ChangeSource, clock: nat -> i64, queueTime: i64,
                         current: Location -> BlockWrapper, completion: Task)
    requires Valid(g) && Distinct(changes) && HasSubjects(changes.entries)
    ensures var s := Restore(g, changes, source, clock, queueTime, current, completion).value.scheduler;
      s.runnables == [] <==> IsDone(g) && forall i :: 0 <= i < |changes.entries| ==> !Lands(changes.entries[i])
    ensures var s := Restore(g, changes, source, clock, queueTime, current, completion).value.scheduler;
      s.runnables == [] ==> s.fired == g.fired + g.runnables + [completion]
    ensures var s := Restore(g, changes, source, clock, queueTime, current, completion).value.scheduler;
      s.runnables != [] ==> s.fired == g.fired && s.runnables == g.runnables + [completion]
  {
    var cs := changes.entries;
    var (s, id) := FillAndEnqueue(g, changes.world, cs, queueTime);
    var q := s.queues[id];
    var empty := LocalBlockQueue.NewQueue(changes.world, queueTime);
    if k :| 0 <= k < |cs| && Lands(cs[k]) {
      QueuedBlockLands(empty, cs, k);
      var l := cs[k].location;
      assert LocalBlockQueue.KeyOf(l.x, l.z) in q.blockChunks;
      assert LocalBlockQueue.Size(q) > 0;
      assert !IsDone(s);
    } else {
      NothingLandsKeepsQueue(empty, cs);
      assert LocalBlockQueue.Size(q) == 0;
      assert IsDone(s) <==> IsDone(g) by {
        assert forall other :: other in s.active <==> other in g.active;
        assert forall other :: other in s.inactive <==> other in g.inactive;
      }
    }
  }
}
