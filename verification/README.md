# IronGolem mutation pipeline, modelled in Dafny

IronGolem is a block-logging and rollback plugin for Minecraft servers. This
project models the sequential core of its mutation pipeline, with the game
server and the database replaced by explicit values:

- **Local block queues** (`local_queue.dfy`, `queue_wrappers.dfy`,
  `math_utils.dfy`, `coord_cache.dfy`). `BasicLocalBlockQueue` groups pending
  block writes into 16×256×16 chunks keyed by `MathUtils.pairInt(x >> 4, z >> 4)`
  and applies them one chunk at a time, oldest chunk first. The `Delegate` and
  `Scoped` wrappers forward to a parent queue, which they hold as a value. The restoration handler's
  coordinate cache maps chunk-local positions to `(layer, slot)` pairs and back.
- **The global scheduler** (`global_queue.dfy`, `global_queue_legacy.dfy`).
  Every local queue is inactive, active or in neither set. A repeating tick
  skips when the server lags, chooses one queue (active ones first, then an
  inactive one holding more than 64 chunks in total or idle for over a second),
  and drains it within a time budget. Empty inactive queues idle for a minute
  are dropped. Callbacks added with `addEmptyTask` run once both sets are
  empty. Both variants of the class are modelled; the older one adds `stop`,
  boolean results, stage queries, `dequeue`, `getAllQueues` and `flush`.
- **The batching change logger** (`change_logger.dfy`). A FIFO of changes is
  drained into `startBatch` / `persist` / `finishBatch` calls, with each
  failure handled as the source handles it.
- **Queries and storage** (`change_query.dfy`, `changes.dfy`,
  `sqlite_store.dfy`, `change.dfy`, `geometry.dfy`).
  - `ChangeQuery` has builder defaults, and `withLimit` maps `-1` to
    `Integer.MAX_VALUE`.
  - The SQL that `SQLiteLogger.queryChanges` renders is modelled over an
    in-memory `events` table: the box predicate, the distinct subquery, the
    reason `IN` list, the source filter and the `LIMIT`. The model proves that
    the placeholders and the bound values match one for one.
  - `persist` binds the columns of a change as the program does, so a new
    block tag paired with an empty old one is stored as no bytes (see
    "## Findings"). Reading a persisted change back is proved to rebuild it
    exactly when that loss does not occur.
  - The `Changes` multimap is indexed by position and tracks distinctness.
  - The `Change` builder checks its fields in `build`.
  - `CuboidRegion` normalises its corners.
- **Subjects and commands** (`subjects.dfy`, `blocks.dfy`,
  `command_flags.dfy`, `sub_command.dfy`, `aliases.dfy`). `BlockSubject` and
  `RestorationSubject` serialise their columns, with the empty byte array
  standing for "no tag". `SubjectFactory` reads the columns back. The
  `--key value` flag parser has integer, enum and boolean flags and tab
  completion, and sub-commands have aliases.
- **Restoration** (`restoration.dfy`, `restoration_queue.dfy`). `QueueRestorationHandler.restore`
  logs restoration changes, fills a fresh queue with the recorded blocks,
  enqueues it, and then registers the completion task. Both of its loops
  select changes by the subject's type and then cast the subject to
  `BlockSubject`. A `RestorationSubject` built with type BLOCK passes the test
  and fails the cast, so `restore` throws a class-cast exception before
  logging or queueing anything. The second file states what the filled queue
  holds and when the completion task runs.

Java's `int`, `short` and `long` are subset types, and wrap-around is written
out where the source relies on it (`java_lang.dfy`). `null` and thrown
exceptions are `Option` and `Result` values (`wrappers.dfy`). The wall clock,
the main-thread test, and the success of each apply, start, persist, finish
and database call are parameters of the functions that need them.

Where the code and the class documentation disagree, the model follows the
code:

- `Change.ChangeBuilder.build` checks the location twice and never checks the
  subject, so a change can be built without a subject (`ChangeModel.BuildWithoutSubject`).
- `SQLiteLogger.finishBatch` clears its statement only when the batch executes
  without throwing.
- In the older scheduler, `stop` clears the running flag but does not cancel
  the repeating task, so ticks go on. A later `runTask` registers a second one.
- `flush` on the main thread throws before its `try`, so the queue is not
  dequeued in that case.
- Flag completion with an odd number of arguments compares the lower-cased
  alias with the last argument as typed. With an even number, both sides are
  lower-cased.
- `parseFlags` drops the first two characters of every flag token without
  checking that they are `--`. A token shorter than two characters throws
  `StringIndexOutOfBoundsException`.
- `ChangeQuery` does not declare the reasons and the source that
  `SQLiteLogger.queryChanges` reads. The model adds them as two fields.
- `restore` and `SubjectFactory` call a `BlockWrapper(BlockState, byte[])`
  constructor, but the `BlockWrapper` shown only has a private
  `(BlockState, CompoundTag)` one. The model reads the bytes through
  `NBTUtils.bytesToCompound` (`Blocks.WrapperOfBytes`).

## Model

| member | source | states |
|---|---|---|
| MathUtils.PairInt | src/main/java/com/intellectualsites/irongolem/util/MathUtils.java:22-24 | the chunk key holds `x` in its high 32 bits and the bit pattern of `y` in its low 32 bits |
| MathUtils.UnpairPairInt | src/main/java/com/intellectualsites/irongolem/util/MathUtils.java:22-24 | `r >> 32` and `(int) r` recover both coordinates from a chunk key |
| MathUtils.PairIntInjective | src/main/java/com/intellectualsites/irongolem/util/MathUtils.java:22-24 | distinct chunk coordinates never share a key |
| MathUtils.Pair | src/main/java/com/intellectualsites/irongolem/util/MathUtils.java:26-28 | the hash holds `x` in its high 16 bits and the bit pattern of `y` in its low 16 bits |
| MathUtils.UnpairPair | src/main/java/com/intellectualsites/irongolem/util/MathUtils.java:26-28 | both shorts are recovered from the packed `int` |
| MathUtils.PairInjective | src/main/java/com/intellectualsites/irongolem/util/MathUtils.java:26-28 | distinct pairs of shorts never share a packed value |
| CoordCache.CacheI | Core/src/main/java/com/intellectualsites/irongolem/restoration/QueueRestorationHandler.java:80 | the layer of a position in a chunk is one of the 16 sections |
| CoordCache.CacheJ | Core/src/main/java/com/intellectualsites/irongolem/restoration/QueueRestorationHandler.java:81 | the slot of a position lies within the 4096 cells of its section |
| CoordCache.YLoc | Core/src/main/java/com/intellectualsites/irongolem/restoration/QueueRestorationHandler.java:64 | the height decoded from a layer and slot lies in 0..255 |
| CoordCache.ZLoc | Core/src/main/java/com/intellectualsites/irongolem/restoration/QueueRestorationHandler.java:65-66 | the z decoded from a layer and slot lies in 0..15 |
| CoordCache.XLoc | Core/src/main/java/com/intellectualsites/irongolem/restoration/QueueRestorationHandler.java:67 | the x decoded from a layer and slot lies in 0..15 |
| CoordCache.PositionRoundTrip | Core/src/main/java/com/intellectualsites/irongolem/restoration/QueueRestorationHandler.java:61-86 | position to (layer, slot) and back through the inverse tables gives the position again |
| CoordCache.SlotRoundTrip | Core/src/main/java/com/intellectualsites/irongolem/restoration/QueueRestorationHandler.java:61-86 | (layer, slot) to position and back through the forward tables gives the cell again |
| CoordCache.CellInjective | Core/src/main/java/com/intellectualsites/irongolem/restoration/QueueRestorationHandler.java:77-86 | distinct positions of a chunk occupy distinct cells |
| CoordCache.BuildXLoc | Core/src/main/java/com/intellectualsites/irongolem/restoration/QueueRestorationHandler.java:58-72 | `x_loc` is 16 by 4096 and holds the decoded x of every cell |
| CoordCache.BuildYLoc | Core/src/main/java/com/intellectualsites/irongolem/restoration/QueueRestorationHandler.java:59-72 | `y_loc` is 16 by 4096 and holds the decoded height of every cell |
| CoordCache.BuildZLoc | Core/src/main/java/com/intellectualsites/irongolem/restoration/QueueRestorationHandler.java:60-72 | `z_loc` is 16 by 4096 and holds the decoded z of every cell |
| CoordCache.BuildCacheI | Core/src/main/java/com/intellectualsites/irongolem/restoration/QueueRestorationHandler.java:75-86 | `CACHE_I` is 256 by 16 by 16, indexed `[y][x][z]`, and holds each position's layer |
| CoordCache.BuildCacheJ | Core/src/main/java/com/intellectualsites/irongolem/restoration/QueueRestorationHandler.java:76-86 | `CACHE_J` is 256 by 16 by 16, indexed `[y][x][z]`, and holds each position's slot |
| CoordCache.InitCache | Core/src/main/java/com/intellectualsites/irongolem/restoration/QueueRestorationHandler.java:56-88 | afterwards both groups of tables exist; a group already allocated is kept as it is, a missing one is built |
| CoordCache.InitCacheIdempotent | Core/src/main/java/com/intellectualsites/irongolem/restoration/QueueRestorationHandler.java:56-88 | a second `initCache` changes nothing |
| CoordCache.InitialTablesRoundTrip | Core/src/main/java/com/intellectualsites/irongolem/restoration/QueueRestorationHandler.java:56-88 | the tables built from scratch map positions to cells and back in both directions |
| Blocks.CompoundToBytes | Core/src/main/java/com/intellectualsites/irongolem/util/NBTUtils.java:41-48 | only the empty tag encodes to zero bytes, and decoding the bytes gives the tag back |
| Blocks.BytesToCompound | Core/src/main/java/com/intellectualsites/irongolem/util/NBTUtils.java:55-57 | zero bytes decode to the empty tag |
| Blocks.WrapperOf | Core/src/main/java/com/intellectualsites/irongolem/util/BlockWrapper.java:57-58 | a wrapper built from block data alone carries the empty tag |
| Blocks.WrapperOfBytes | Core/src/main/java/com/intellectualsites/irongolem/restoration/QueueRestorationHandler.java:137-139 | the tag decoded from serialised bytes is empty exactly for zero bytes and encodes back to those bytes |
| Blocks.WrapperOfBase | Core/src/main/java/com/intellectualsites/irongolem/util/BlockWrapper.java:73-75 | a block without NBT data gets the empty tag; otherwise its tag is kept |
| JavaLang.Min | src/main/java/com/intellectualsites/irongolem/util/CuboidRegion.java:32 | `Math.min` is one of its arguments and no greater than either |
| JavaLang.Max | src/main/java/com/intellectualsites/irongolem/util/CuboidRegion.java:33 | `Math.max` is one of its arguments and no less than either |
| Geometry.RegionOf | src/main/java/com/intellectualsites/irongolem/util/CuboidRegion.java:31-34 | the region is normalised, contains both points, and contains exactly the points between them on every axis |
| Geometry.RegionOfSymmetric | src/main/java/com/intellectualsites/irongolem/util/CuboidRegion.java:31-34 | the order of the two points does not matter |
| Geometry.RegionOfCorners | src/main/java/com/intellectualsites/irongolem/util/CuboidRegion.java:31-52 | a region rebuilt from its own minimum and maximum points is the same region |
| Geometry.Width | src/main/java/com/intellectualsites/irongolem/util/CuboidRegion.java:59-61 | when the x extent fits in an `int`, the width is that extent and at least 1 |
| Geometry.Height | src/main/java/com/intellectualsites/irongolem/util/CuboidRegion.java:68-70 | when the y extent fits in an `int`, the height is that extent and at least 1 |
| Geometry.Depth | src/main/java/com/intellectualsites/irongolem/util/CuboidRegion.java:77-79 | when the z extent fits in an `int`, the depth is that extent and at least 1 |
| Geometry.Size | src/main/java/com/intellectualsites/irongolem/util/CuboidRegion.java:86-88 | the size is the number of blocks in the region when the extents and their product fit |
| Geometry.WidthWrapsOnFullRange | src/main/java/com/intellectualsites/irongolem/util/CuboidRegion.java:59-61 | a region spanning the whole `int` range along x reports width 0 |
| Subjects.TypeValueOf | Core/src/main/java/com/intellectualsites/irongolem/util/SubjectFactory.java:43 | `ChangeType.valueOf` succeeds exactly for a declared name, which it keeps; an undeclared name throws an illegal-argument exception |
| Subjects.BlockSubjectOf | Core/src/main/java/com/intellectualsites/irongolem/changes/BlockSubject.java:41-61 | the subject takes block data and tags from the two wrappers, and each full flag says whether its tag has entries |
| Subjects.SerializeOldState | Core/src/main/java/com/intellectualsites/irongolem/changes/BlockSubject.java:98-103 | the old-state bytes decode to the old tag, and are empty exactly when the old tag is |
| Subjects.SerializeNewStateAsWritten | Core/src/main/java/com/intellectualsites/irongolem/changes/BlockSubject.java:91-96 | as written: no bytes whenever the OLD tag is empty, otherwise the new tag's bytes |
| Subjects.SerializeNewState | Core/src/main/java/com/intellectualsites/irongolem/changes/BlockSubject.java:91-96 | corrected: the new-state bytes decode to the new tag, and are empty exactly when the new tag is |
| Subjects.SerializeNewStateAsWrittenLosesTag | Core/src/main/java/com/intellectualsites/irongolem/changes/BlockSubject.java:91-96 | an empty old tag paired with a non-empty new tag makes the as-written guard drop the new tag |
| Subjects.SerializeNewStateAgreement | Core/src/main/java/com/intellectualsites/irongolem/changes/BlockSubject.java:91-103 | the as-written and corrected serialisations agree exactly when both flags agree or the new tag is empty |
| Subjects.GetFromFull | Core/src/main/java/com/intellectualsites/irongolem/changes/BlockSubject.java:105-112 | the `from` block carries NBT exactly when the old tag is full, and wrapping it gives the old tag back |
| Subjects.GetToFull | Core/src/main/java/com/intellectualsites/irongolem/changes/BlockSubject.java:114-121 | the `to` block carries NBT exactly when the new tag is full, and wrapping it gives the new tag back |
| Subjects.FullBlocksRoundTrip | Core/src/main/java/com/intellectualsites/irongolem/changes/BlockSubject.java:105-121 | wrapping `getFromFull` and `getToFull` gives back the wrappers the subject was built from |
| Subjects.GetType | Core/src/main/java/com/intellectualsites/irongolem/changes/BlockSubject.java:71-73 | a block subject is always of type BLOCK; a restoration subject has the type it was built with |
| Subjects.SerializeFrom | Core/src/main/java/com/intellectualsites/irongolem/changes/RestorationSubject.java:53-55 | a block subject writes its `from` state; a restoration subject writes a string that parses to -1 |
| Subjects.SerializeTo | Core/src/main/java/com/intellectualsites/irongolem/changes/RestorationSubject.java:57-59 | a block subject writes its `to` state; a restoration subject writes a string that parses back to its id |
| Subjects.SubjectOldState | Core/src/main/java/com/intellectualsites/irongolem/changes/RestorationSubject.java:61-63 | a restoration subject writes no old-state bytes; a block subject's bytes decode to its old tag |
| Subjects.SubjectNewState | Core/src/main/java/com/intellectualsites/irongolem/changes/BlockSubject.java:91-96 | `serializeNewState` as dispatched by the program: a restoration subject writes no bytes; a block subject writes no bytes when its old tag is empty, and otherwise bytes that decode to its new tag |
| Subjects.SubjectNewStateCorrected | Core/src/main/java/com/intellectualsites/irongolem/changes/BlockSubject.java:91-96 | with the guard on the new tag's flag: a restoration subject writes no bytes and a block subject's bytes decode to its new tag |
| Subjects.GetSubject | Core/src/main/java/com/intellectualsites/irongolem/util/SubjectFactory.java:41-49 | an undeclared type throws, and so does BLOCK with a `from` or `to` string `createBlockData` cannot parse, both as illegal-argument exceptions; BLOCK with parseable strings, and only that, yields a block subject built from the two strings and the two byte arrays; other types yield null |
| Subjects.BlockSubjectColumnsRoundTrip | Core/src/main/java/com/intellectualsites/irongolem/util/SubjectFactory.java:41-49 | corrected: writing a block subject's five columns, the new state with the guard on the new tag, and reading them back through the factory rebuilds the same subject when both block states parse |
| Subjects.BlockSubjectColumnsAsWritten | Core/src/main/java/com/intellectualsites/irongolem/changes/BlockSubject.java:91-96 | as written: the same round trip rebuilds the subject exactly when its old tag is non-empty or its new tag is empty; otherwise the new tag comes back empty |
| Subjects.BlockSubjectColumnsAsWrittenFails | Core/src/main/java/com/intellectualsites/irongolem/changes/BlockSubject.java:91-96 | with the as-written new-state guard the same round trip fails for some subject |
| ChangeModel.ReasonValueOf | Core/src/main/java/com/intellectualsites/irongolem/storage/SQLiteLogger.java:185 | `ChangeReason.valueOf` succeeds exactly for a declared name, which it keeps; anything else throws an illegal-argument exception |
| ChangeModel.NewBuilder | src/main/java/com/intellectualsites/irongolem/changes/Change.java:93-99 | a new builder has nothing set and the time it was created as its timestamp |
| ChangeModel.Build | src/main/java/com/intellectualsites/irongolem/changes/Change.java:126-132 | building fails with a null-pointer exception exactly when the source, the location or the reason is unset; otherwise the change holds the builder's fields |
| ChangeModel.WithSource | src/main/java/com/intellectualsites/irongolem/changes/Change.java:101-104 | the source is set and nothing else changes |
| ChangeModel.AtLocation | src/main/java/com/intellectualsites/irongolem/changes/Change.java:106-109 | the location is set and nothing else changes |
| ChangeModel.WithSubject | src/main/java/com/intellectualsites/irongolem/changes/Change.java:111-114 | the subject is set and nothing else changes |
| ChangeModel.WithReason | src/main/java/com/intellectualsites/irongolem/changes/Change.java:116-119 | the reason is set and nothing else changes |
| ChangeModel.AtTime | src/main/java/com/intellectualsites/irongolem/changes/Change.java:121-124 | the timestamp is replaced and nothing else changes |
| ChangeModel.BuildChain | src/main/java/com/intellectualsites/irongolem/changes/Change.java:101-132 | the usual builder chain yields a change holding exactly the values given and the creation time |
| ChangeModel.BuildAtTime | src/main/java/com/intellectualsites/irongolem/changes/Change.java:121-124 | `atTime` replaces the timestamp and changes nothing else, success included |
| ChangeModel.BuildWithoutSubject | src/main/java/com/intellectualsites/irongolem/changes/Change.java:126-131 | a builder without a subject still builds, because the subject check tests the location again |
| Query.NewQuery | Core/src/main/java/com/intellectualsites/irongolem/changes/ChangeQuery.java:35-50 | a new query has no world and no region, the limit 32767 and distinct off |
| Query.InWorld | Core/src/main/java/com/intellectualsites/irongolem/changes/ChangeQuery.java:58-61 | the world is set and every other field is unchanged |
| Query.InRegion | Core/src/main/java/com/intellectualsites/irongolem/changes/ChangeQuery.java:69-72 | the region is set and every other field is unchanged |
| Query.PointRegion | Core/src/main/java/com/intellectualsites/irongolem/changes/ChangeQuery.java:83 | the point region contains exactly the one position |
| Query.AtLocation | Core/src/main/java/com/intellectualsites/irongolem/changes/ChangeQuery.java:80-85 | the world becomes the location's world, the region contains exactly the location's position, and nothing else changes |
| Query.DistinctValues | Core/src/main/java/com/intellectualsites/irongolem/changes/ChangeQuery.java:92-95 | the distinct flag is set and nothing else changes |
| Query.DistinctValuesIdempotent | Core/src/main/java/com/intellectualsites/irongolem/changes/ChangeQuery.java:92-95 | asking for distinct values twice is the same as asking once |
| Query.WithReasons | Core/src/main/java/com/intellectualsites/irongolem/storage/SQLiteLogger.java:125-134 | the reasons the reason `IN` list is built from are set, and nothing else changes |
| Query.FromSource | Core/src/main/java/com/intellectualsites/irongolem/storage/SQLiteLogger.java:136-138 | the source the source filter tests is set, and nothing else changes |
| Query.WithLimit | Core/src/main/java/com/intellectualsites/irongolem/changes/ChangeQuery.java:103-110 | -1 becomes `Integer.MAX_VALUE`, a positive limit is stored as given, any other limit throws an illegal-state exception; nothing else changes |
| Query.BuilderKeepsLimitPositive | Core/src/main/java/com/intellectualsites/irongolem/changes/ChangeQuery.java:103-110 | every builder operation keeps the limit positive |
| Query.CheckQuery | Core/src/main/java/com/intellectualsites/irongolem/changes/ChangeQuery.java:155-157 | the query passes exactly when a world, a region and a positive limit are set; a missing world or region is a null-pointer exception |
| Query.QueryChanges | Core/src/main/java/com/intellectualsites/irongolem/changes/ChangeQuery.java:154-160 | a query that passes the checks yields a change set with the query's world and region holding exactly the changes found |
| ChangeSet.NewChanges | Core/src/main/java/com/intellectualsites/irongolem/changes/Changes.java:39-46 | the set keeps the world and region, counts every change, and files each change under its own position in input order |
| ChangeSet.Filter | Core/src/main/java/com/intellectualsites/irongolem/changes/Changes.java:43-45 | the changes at a position are exactly the input changes with that position |
| ChangeSet.GetChanges | Core/src/main/java/com/intellectualsites/irongolem/changes/Changes.java:53-55 | all changes are returned, duplicates at a position included |
| ChangeSet.GetSize | Core/src/main/java/com/intellectualsites/irongolem/changes/Changes.java:62-64 | the size is the number of changes returned by `getChanges` |
| ChangeSet.GetChangesAt | Core/src/main/java/com/intellectualsites/irongolem/changes/Changes.java:90-92 | only changes at the position are returned, and none for a position without changes |
| ChangeSet.CountAtIsFilterLength | Core/src/main/java/com/intellectualsites/irongolem/changes/Changes.java:90-92 | the per-position count is the size of `getChangesAt` |
| ChangeSet.CountAtLeastTwo | Core/src/main/java/com/intellectualsites/irongolem/changes/Changes.java:100-107 | two changes at one position make its count at least two |
| ChangeSet.CountAtLeastOne | Core/src/main/java/com/intellectualsites/irongolem/changes/Changes.java:100-107 | a position holding a change has count at least one |
| ChangeSet.CountAtMostOne | Core/src/main/java/com/intellectualsites/irongolem/changes/Changes.java:100-107 | without repeated positions every count is at most one |
| ChangeSet.CountAtZero | Core/src/main/java/com/intellectualsites/irongolem/changes/Changes.java:90-92 | a position without changes has count zero |
| ChangeSet.DistinctBoundsCount | Core/src/main/java/com/intellectualsites/irongolem/changes/Changes.java:94-107 | in a distinct set every position holds at most one change |
| ChangeSet.IndexAt | Core/src/main/java/com/intellectualsites/irongolem/changes/Changes.java:101 | a position with a positive count is the position of some change of the set |
| ChangeSet.DistinctIffAtMostOnePerPosition | Core/src/main/java/com/intellectualsites/irongolem/changes/Changes.java:94-107 | a set is distinct exactly when no position holds more than one change, the empty set included |
| ChangeSet.IsDistinct | Core/src/main/java/com/intellectualsites/irongolem/changes/Changes.java:100-107 | the loop over the keys answers true exactly when no two changes share a position |
| ChangeSet.DistinctFromCounts | Core/src/main/java/com/intellectualsites/irongolem/changes/Changes.java:100-107 | every change being alone at its position makes the set distinct |
| SQLiteStore.PersistValues | Core/src/main/java/com/intellectualsites/irongolem/storage/SQLiteLogger.java:90-109 | `persist` binds twelve values of the column shapes for a change with a subject, the new state as `serializeNewState` writes it, and throws a null-pointer exception for one without |
| SQLiteStore.InsertedRow | Core/src/main/java/com/intellectualsites/irongolem/storage/SQLiteLogger.java:84-86 | the inserted row carries the fresh id and, in each of the twelve INSERT columns, the value bound to that column's placeholder |
| SQLiteStore.PersistColumnOrder | Core/src/main/java/com/intellectualsites/irongolem/storage/SQLiteLogger.java:94-105 | the row a persisted change becomes holds the world name, block x, y, z, timestamp, source name, subject type, from, to, old state, new state and reason name in their own columns; the new state is the program's `serializeNewState` |
| SQLiteStore.StartBatch | Core/src/main/java/com/intellectualsites/irongolem/storage/SQLiteLogger.java:82-88 | a fresh INSERT statement with an empty batch replaces any previous one; a failing prepare throws and changes nothing |
| SQLiteStore.Persist | Core/src/main/java/com/intellectualsites/irongolem/storage/SQLiteLogger.java:90-109 | with a statement and a subject, the change's values are appended to the batch; otherwise a null-pointer exception and the batch is unchanged |
| SQLiteStore.InsertAll | Core/src/main/java/com/intellectualsites/irongolem/storage/SQLiteLogger.java:204 | executing a batch inserts one row per bound value list, with consecutive ids |
| SQLiteStore.FinishBatch | Core/src/main/java/com/intellectualsites/irongolem/storage/SQLiteLogger.java:201-208 | the batch's rows are appended in order with increasing ids and the statement cleared; a throwing execute leaves the statement in place; the table stays ordered by id |
| SQLiteStore.ReasonList | Core/src/main/java/com/intellectualsites/irongolem/storage/SQLiteLogger.java:126-134 | no selected reasons give an empty list between the parentheses |
| SQLiteStore.PlaceholdersMatchBindings | Core/src/main/java/com/intellectualsites/irongolem/storage/SQLiteLogger.java:120-163 | the SELECT has exactly one placeholder per bound value, 7 plus 7 for distinct plus 1 for a source plus 1 for the limit, and the limit goes to the final `LIMIT ?` |
| SQLiteStore.RenderedSqlMatchesBindings | Core/src/main/java/com/intellectualsites/irongolem/storage/SQLiteLogger.java:120-163 | the SQL text contains exactly as many `?` characters as values are bound |
| SQLiteStore.EmptyReasonClause | Core/src/main/java/com/intellectualsites/irongolem/storage/SQLiteLogger.java:126-134 | with no reasons selected the statement contains `reason IN ()` |
| SQLiteStore.Matching | Core/src/main/java/com/intellectualsites/irongolem/storage/SQLiteLogger.java:120-138 | exactly the rows passing the WHERE clause are kept, in table order |
| SQLiteStore.Select | Core/src/main/java/com/intellectualsites/irongolem/storage/SQLiteLogger.java:120-163 | at most `limit` rows come back, each in the world and inclusive box, with a selected reason and the selected source; all matching rows when they fit the limit |
| SQLiteStore.DistinctSelectOnePerPosition | Core/src/main/java/com/intellectualsites/irongolem/storage/SQLiteLogger.java:121-123 | with `distinct`, no two returned rows share a position |
| SQLiteStore.DistinctIgnoresReasonFilter | Core/src/main/java/com/intellectualsites/irongolem/storage/SQLiteLogger.java:121-134 | when the oldest change at a position has an unselected reason, a later change there with a selected reason is not returned either |
| SQLiteStore.DecodeRow | Core/src/main/java/com/intellectualsites/irongolem/storage/SQLiteLogger.java:165-188 | an unknown source skips the row; a kept change carries the row's source, narrowed coordinates, timestamp, reason and a valid block subject; it is kept exactly when source, type and reason are known, the type is BLOCK and both block states parse; an escaping exception is an illegal-argument exception |
| SQLiteStore.DecodeAll | Core/src/main/java/com/intellectualsites/irongolem/storage/SQLiteLogger.java:164-190 | the decoded list is no longer than the rows |
| SQLiteStore.DecodeAllSound | Core/src/main/java/com/intellectualsites/irongolem/storage/SQLiteLogger.java:164-190 | decoding succeeds exactly when no row throws, and every change in the list was rebuilt from a returned row |
| SQLiteStore.QueryTask | Core/src/main/java/com/intellectualsites/irongolem/storage/SQLiteLogger.java:112-199 | an SQL failure completes the future exceptionally; another exception leaves it uncompleted; otherwise it completes with the decoded changes in row order |
| SQLiteStore.PersistDecodeRoundTrip | Core/src/main/java/com/intellectualsites/irongolem/storage/SQLiteLogger.java:90-188 | given a registered source, declared enum names and parseable block states, a persisted block change is read back as itself exactly when its old tag is non-empty or its new tag is empty, and otherwise with its new tag emptied |
| ChangeLogger.LogChange | src/main/java/com/intellectualsites/irongolem/logging/QueuingChangeLogger.java:37-39 | the change is appended behind every change already queued |
| ChangeLogger.PollChange | src/main/java/com/intellectualsites/irongolem/logging/QueuingChangeLogger.java:41-43 | polling removes and returns the oldest change, or returns null on an empty queue |
| ChangeLogger.LogThenPoll | src/main/java/com/intellectualsites/irongolem/logging/QueuingChangeLogger.java:31-43 | first in, first out: a change logged into an empty queue is the next one polled, otherwise the oldest one is |
| ChangeLogger.MaxBatchSizeRoundTrip | Core/src/main/java/com/intellectualsites/irongolem/logging/ScheduledQueuingChangeLogger.java:44-82 | `getMaxBatchSize` returns the constructor's limit |
| ChangeLogger.StepCalls | Core/src/main/java/com/intellectualsites/irongolem/logging/ScheduledQueuingChangeLogger.java:101-126 | a loop step begins with `startBatch` when no batch is open and with `persist` otherwise |
| ChangeLogger.Loop | Core/src/main/java/com/intellectualsites/irongolem/logging/ScheduledQueuingChangeLogger.java:100-135 | a non-empty queue makes at least one storage call, beginning with a start when no batch is open; only an aborting start leaves changes behind |
| ChangeLogger.Run | Core/src/main/java/com/intellectualsites/irongolem/logging/ScheduledQueuingChangeLogger.java:95-137 | corrected: an empty queue makes no call; otherwise the run begins by starting a batch |
| ChangeLogger.RunAsWritten | Core/src/main/java/com/intellectualsites/irongolem/logging/ScheduledQueuingChangeLogger.java:95-137 | as written, with the count never reset: an empty queue makes no call; otherwise the run begins by starting a batch |
| ChangeLogger.RunTask | Core/src/main/java/com/intellectualsites/irongolem/logging/ScheduledQueuingChangeLogger.java:95-137 | the polling loop, with the count never reset as written, makes the same calls, loses the same change and leaves the same queue as the as-written run; with the count reset it matches the corrected run |
| ChangeLogger.LogOne | Core/src/main/java/com/intellectualsites/irongolem/logging/ScheduledQueuingChangeLogger.java:101-126 | one pass for a polled change: a failing start gives up with only that failed call; otherwise a batch is started unless one is open, the change is persisted and counted, and the batch is finished and closed once the count reaches the limit, the count carrying on as written or going back to zero when corrected |
| ChangeLogger.Persisted | Core/src/main/java/com/intellectualsites/irongolem/logging/ScheduledQueuingChangeLogger.java:112-117 | at most one change is handed to `persist` per call |
| ChangeLogger.LoopConserves | Core/src/main/java/com/intellectualsites/irongolem/logging/ScheduledQueuingChangeLogger.java:100-127 | the changes persisted, the one lost and those left in the queue are the queue's changes in order, none duplicated |
| ChangeLogger.RunPersistsEverything | Core/src/main/java/com/intellectualsites/irongolem/logging/ScheduledQueuingChangeLogger.java:100-135 | a run whose starts all succeed persists every queued change in order and empties the queue; an aborted run persists fewer |
| ChangeLogger.LoopBracketed | Core/src/main/java/com/intellectualsites/irongolem/logging/ScheduledQueuingChangeLogger.java:100-135 | `persist` and `finishBatch` happen only inside a started batch, `startBatch` only outside one, nothing after a failed start, and no batch stays open |
| ChangeLogger.RunBracketed | Core/src/main/java/com/intellectualsites/irongolem/logging/ScheduledQueuingChangeLogger.java:95-137 | both the corrected and the as-written run keep the storage calls well bracketed |
| ChangeLogger.LoopFullBatches | Core/src/main/java/com/intellectualsites/irongolem/logging/ScheduledQueuingChangeLogger.java:100-135 | with the count reset and every start succeeding, the loop's batches hold exactly `max` changes except the last |
| ChangeLogger.RunMakesFullBatches | Core/src/main/java/com/intellectualsites/irongolem/logging/ScheduledQueuingChangeLogger.java:95-137 | corrected: every batch holds exactly `maxBatchSize` changes except the last, which holds between 1 and `maxBatchSize` |
| ChangeLogger.AsWrittenBatchesShrink | Core/src/main/java/com/intellectualsites/irongolem/logging/ScheduledQueuingChangeLogger.java:98-126 | as written, five changes with a limit of two are stored in batches of 2, 1, 1 and 1 |
| ChangeLogger.AsWrittenSaturated | Core/src/main/java/com/intellectualsites/irongolem/logging/ScheduledQueuingChangeLogger.java:119-126 | as written, once the count has reached the limit every further change is stored as a batch of its own |
| ChangeLogger.ResetBatchesStayFull | Core/src/main/java/com/intellectualsites/irongolem/logging/ScheduledQueuingChangeLogger.java:98-126 | with the count reset, the same run stores batches of 2, 2 and 1 |
| LocalBlockQueue.NewChunk | Core/src/main/java/com/intellectualsites/irongolem/queue/BasicLocalBlockQueue.java:163-166 | a new chunk has its coordinates and no layer allocated |
| LocalBlockQueue.LongHash | Core/src/main/java/com/intellectualsites/irongolem/queue/BasicLocalBlockQueue.java:151-153 | both chunk coordinates can be read back from the chunk's map key |
| LocalBlockQueue.HashCode | Core/src/main/java/com/intellectualsites/irongolem/queue/BasicLocalBlockQueue.java:155-157 | the hash's high half agrees with x and its low half with z, modulo 2^16 |
| LocalBlockQueue.ToShortEqual | Core/src/main/java/com/intellectualsites/irongolem/queue/BasicLocalBlockQueue.java:156 | two ints cast to the same `short` exactly when they agree modulo 2^16 |
| LocalBlockQueue.HashCodeEqual | Core/src/main/java/com/intellectualsites/irongolem/queue/BasicLocalBlockQueue.java:151-157 | two chunks share a `hashCode` exactly when their coordinates agree modulo 2^16, and share a `longHash` exactly when their coordinates are equal |
| LocalBlockQueue.ToShort | Core/src/main/java/com/intellectualsites/irongolem/queue/BasicLocalBlockQueue.java:156 | the `(short)` cast keeps the value modulo 2^16, and keeps it unchanged when it fits |
| LocalBlockQueue.HashCodeCollides | Core/src/main/java/com/intellectualsites/irongolem/queue/BasicLocalBlockQueue.java:151-157 | chunks 65536 apart share a `hashCode` though their `longHash` keys differ |
| LocalBlockQueue.SetInternal | Core/src/main/java/com/intellectualsites/irongolem/queue/BasicLocalBlockQueue.java:172-180 | storing a block keeps the chunk's shape and coordinates |
| LocalBlockQueue.SetInternalThenRead | Core/src/main/java/com/intellectualsites/irongolem/queue/BasicLocalBlockQueue.java:172-180 | after `setInternal` the chunk holds the block at that position, and every other position is as before |
| LocalBlockQueue.NewQueue | Core/src/main/java/com/intellectualsites/irongolem/queue/BasicLocalBlockQueue.java:40-51 | a new queue is consistent and holds no chunk |
| LocalBlockQueue.ChunkOf | Core/src/main/java/com/intellectualsites/irongolem/queue/BasicLocalBlockQueue.java:106-107 | `x >> 4` is the chunk whose 16 columns contain `x`, negative coordinates included |
| LocalBlockQueue.InChunkOf | Core/src/main/java/com/intellectualsites/irongolem/queue/BasicLocalBlockQueue.java:115-124 | `x & 15` is the offset of `x` inside its chunk |
| LocalBlockQueue.ChunkOfNeverMin | Core/src/main/java/com/intellectualsites/irongolem/queue/BasicLocalBlockQueue.java:106-108 | no block lies in chunk `Integer.MIN_VALUE`, so a reset cache never matches |
| LocalBlockQueue.SetBlock | Core/src/main/java/com/intellectualsites/irongolem/queue/BasicLocalBlockQueue.java:102-126 | a `y` outside 0..255 gives false and no change; otherwise true, and the chunk's key joins the FIFO only when it was not yet queued |
| LocalBlockQueue.CacheTransparent | Core/src/main/java/com/intellectualsites/irongolem/queue/BasicLocalBlockQueue.java:108-123 | the last-chunk cache is invisible: the chunks and FIFO are those a plain map lookup gives |
| LocalBlockQueue.SetBlockThenRead | Core/src/main/java/com/intellectualsites/irongolem/queue/BasicLocalBlockQueue.java:102-126 | a write is visible at its own position and nowhere else |
| LocalBlockQueue.Next | Core/src/main/java/com/intellectualsites/irongolem/queue/BasicLocalBlockQueue.java:64-88 | the cache is reset; an empty queue gives false; otherwise the oldest chunk leaves the FIFO and the map and the result is whether applying it succeeded |
| LocalBlockQueue.SizeIsChunkCount | Core/src/main/java/com/intellectualsites/irongolem/queue/BasicLocalBlockQueue.java:90-92 | `size` (the FIFO) equals the number of chunks in the map, so the emptiness test in `next` agrees with it |
| LocalBlockQueue.SetBlocks | Core/src/main/java/com/intellectualsites/irongolem/queue/BasicLocalBlockQueue.java:102-126 | any sequence of writes keeps the queue consistent |
| LocalBlockQueue.ChunksQueuedInFirstWriteOrder | Core/src/main/java/com/intellectualsites/irongolem/queue/BasicLocalBlockQueue.java:113-119 | from an empty queue, chunks are queued once each, in the order of their first in-range write |
| LocalBlockQueue.Drain | Core/src/main/java/com/intellectualsites/irongolem/queue/BasicLocalBlockQueue.java:64-82 | as many `next` calls as chunks hand out every chunk oldest first and leave the queue empty |
| QueueWrappers.DelegateNext | src/main/java/com/intellectualsites/irongolem/queue/DelegateLocalBlockQueue.java:38-40 | `next` is the parent's `next`; without a parent it throws |
| QueueWrappers.DelegateSize | src/main/java/com/intellectualsites/irongolem/queue/DelegateLocalBlockQueue.java:42-47 | the parent's size, or 0 without a parent |
| QueueWrappers.DelegateGetModified | src/main/java/com/intellectualsites/irongolem/queue/DelegateLocalBlockQueue.java:49-54 | the parent's modification time, or 0 without a parent |
| QueueWrappers.DelegateSetModified | src/main/java/com/intellectualsites/irongolem/queue/DelegateLocalBlockQueue.java:56-60 | the time is set on the parent; without a parent nothing happens |
| QueueWrappers.DelegateModifiedRoundTrip | src/main/java/com/intellectualsites/irongolem/queue/DelegateLocalBlockQueue.java:49-60 | a time set through the delegate reads back exactly when there is a parent, and as 0 otherwise |
| QueueWrappers.DelegateSetBlock | src/main/java/com/intellectualsites/irongolem/queue/DelegateLocalBlockQueue.java:62-64 | `setBlock` is the parent's `setBlock`; without a parent it throws |
| QueueWrappers.DelegateGetWorld | src/main/java/com/intellectualsites/irongolem/queue/DelegateLocalBlockQueue.java:70-72 | the parent's world; without a parent it throws |
| QueueWrappers.NewScoped | Core/src/main/java/com/intellectualsites/irongolem/queue/ScopedLocalBlockQueue.java:46-59 | the scoped queue keeps the parent and both corners exactly as given |
| QueueWrappers.ScopedSetBlock | Core/src/main/java/com/intellectualsites/irongolem/queue/ScopedLocalBlockQueue.java:61-64 | a write outside `0..dx`, `0..dy`, `0..dz` gives false and changes nothing; inside, it is the parent's write at the shifted position |
| QueueWrappers.InvertedCornersRefuseAll | Core/src/main/java/com/intellectualsites/irongolem/queue/ScopedLocalBlockQueue.java:56-63 | corners given in the wrong order, without overflow, make every write refused |
| QueueWrappers.InvertedCornersOverflow | Core/src/main/java/com/intellectualsites/irongolem/queue/ScopedLocalBlockQueue.java:56-58 | a box inverted on the x axis admits writes exactly when `max.x - min.x` overflows, and `dx` is then that difference plus 2^32 |
| QueueWrappers.InvertedCornersExample | Core/src/main/java/com/intellectualsites/irongolem/queue/ScopedLocalBlockQueue.java:56-58 | with `min.x = Integer.MAX_VALUE` and `max.x = Integer.MIN_VALUE`, `dx` wraps to 1 and x = 1 is in scope |
| QueueWrappers.ScopedWriteLands | Core/src/main/java/com/intellectualsites/irongolem/queue/ScopedLocalBlockQueue.java:61-64 | an accepted write lands in the parent at the position shifted by the minimum corner, and nowhere else |
| QueueWrappers.GetMin | Core/src/main/java/com/intellectualsites/irongolem/queue/ScopedLocalBlockQueue.java:66-68 | the minimum corner in the parent's world; without a parent it throws |
| QueueWrappers.GetMax | Core/src/main/java/com/intellectualsites/irongolem/queue/ScopedLocalBlockQueue.java:70-72 | the maximum corner in the parent's world; without a parent it throws |
| QueueWrappers.CornersRoundTrip | Core/src/main/java/com/intellectualsites/irongolem/queue/ScopedLocalBlockQueue.java:46-72 | the corners read back are the constructor's, placed in the parent's world |
| GlobalQueue.NewGlobal | Core/src/main/java/com/intellectualsites/irongolem/queue/GlobalBlockQueue.java:70-78 | a new scheduler has both sets and the callback list empty, `lastPeriod` 0 and the given target time |
| GlobalQueue.GetNewQueue | Core/src/main/java/com/intellectualsites/irongolem/queue/GlobalBlockQueue.java:80-86 | the new queue is fresh and empty; it joins the inactive set if and only if `autoQueue`; the active set and every other queue are untouched |
| GlobalQueue.NewScheduler | Core/src/main/java/com/intellectualsites/irongolem/queue/GlobalBlockQueue.java:70-78 | a new scheduler is not running and has registered no repeating task |
| GlobalQueue.RunTask | Core/src/main/java/com/intellectualsites/irongolem/queue/GlobalBlockQueue.java:88-93 | afterwards the scheduler is running; a repeating task is registered exactly when it was not running before |
| GlobalQueue.RunTaskIdempotent | Core/src/main/java/com/intellectualsites/irongolem/queue/GlobalBlockQueue.java:88-93 | calling `runTask` twice registers one repeating task, as calling it once does |
| GlobalQueue.Enqueue | Core/src/main/java/com/intellectualsites/irongolem/queue/GlobalBlockQueue.java:146-151 | the queue leaves the inactive set; it is active afterwards if and only if it was active or has chunks; no other queue moves and the sets stay free of duplicates |
| GlobalQueue.EnqueueEmptyLeavesBothSets | Core/src/main/java/com/intellectualsites/irongolem/queue/GlobalBlockQueue.java:146-151 | an empty queue that was not active ends up in neither set |
| GlobalQueue.ActiveHead | Core/src/main/java/com/intellectualsites/irongolem/queue/GlobalBlockQueue.java:155-163 | every queue polled off the head is empty, and the head that stops the loop is the first active queue with chunks |
| GlobalQueue.FirstNonEmpty | Core/src/main/java/com/intellectualsites/irongolem/queue/GlobalBlockQueue.java:155-163 | the queue found has chunks; when none is found, every listed queue is empty |
| GlobalQueue.Scan | Core/src/main/java/com/intellectualsites/irongolem/queue/GlobalBlockQueue.java:164-196 | the inactive scan keeps every queue it does not drop, drops only empty queues older than 60000 ms, keeps the set free of duplicates, and chooses only a queue that has chunks |
| GlobalQueue.ScanChoosesFirst | Core/src/main/java/com/intellectualsites/irongolem/queue/GlobalBlockQueue.java:170-191 | a queue chosen while touched within the last 1000 ms is the first with chunks, chosen because the running size total passed 64 |
| GlobalQueue.ScanChoosesNothing | Core/src/main/java/com/intellectualsites/irongolem/queue/GlobalBlockQueue.java:164-196 | with no choice, the size total stays at most 64, every queue with chunks was touched within 1000 ms and exactly the stale empty queues are dropped |
| GlobalQueue.ActivePhase | Core/src/main/java/com/intellectualsites/irongolem/queue/GlobalBlockQueue.java:155-163 | with some active queue holding chunks, the empty ones before it are polled, it becomes the head, it is returned and only its modified time changes |
| GlobalQueue.InactivePhase | Core/src/main/java/com/intellectualsites/irongolem/queue/GlobalBlockQueue.java:164-196 | once the active set is drained, the chosen queue has chunks and stays inactive; only stale empty queues leave the inactive set; nothing else changes but the chosen queue's modified time |
| GlobalQueue.GetNextQueue | Core/src/main/java/com/intellectualsites/irongolem/queue/GlobalBlockQueue.java:153-197 | the active set is consulted first and the inactive set only when no active queue has chunks; the chosen queue has chunks, stays in its set, and its modified time becomes now; the older variant, src/main/java/com/intellectualsites/irongolem/queue/GlobalBlockQueue.java lines 253-297, selects the same way |
| GlobalQueue.IsDone | Core/src/main/java/com/intellectualsites/irongolem/queue/GlobalBlockQueue.java:199-201 | done exactly when no queue is in the active or the inactive set |
| GlobalQueue.RunEmptyTasks | Core/src/main/java/com/intellectualsites/irongolem/queue/GlobalBlockQueue.java:217-226 | the pending callbacks run once each, in order, and the list is left empty; nothing else changes |
| GlobalQueue.RunEmptyTasksIdempotent | Core/src/main/java/com/intellectualsites/irongolem/queue/GlobalBlockQueue.java:217-226 | running the callbacks a second time fires nothing more |
| GlobalQueue.AddEmptyTask | Core/src/main/java/com/intellectualsites/irongolem/queue/GlobalBlockQueue.java:199-215 | every callback ever registered runs once, in order; when both sets are empty the pending ones and the new one run at once, otherwise the new one waits and nothing fires |
| GlobalQueue.Pump | Core/src/main/java/com/intellectualsites/irongolem/queue/GlobalBlockQueue.java:53-68 | `next()` is called at least once and at most once per chunk plus one; every call but the last applied a chunk; the loop stops on a failed or empty `next()`, or with the measured period at or above the budget |
| GlobalQueue.NextN | Core/src/main/java/com/intellectualsites/irongolem/queue/GlobalBlockQueue.java:57 | successive `next()` calls take the chunks off the front of the queue in order |
| GlobalQueue.SetTask | Core/src/main/java/com/intellectualsites/irongolem/queue/GlobalBlockQueue.java:53-68 | the drain loop removes the first chunks of the chosen queue, one per `next()` call; no other queue and neither set changes; callbacks fire only when both sets are empty |
| GlobalQueue.Tick | Core/src/main/java/com/intellectualsites/irongolem/queue/GlobalBlockQueue.java:93-138 | a tick with both sets empty resets `lastPeriod` to 0 and runs the callbacks; a lagging tick lowers `lastPeriod` by the target time and does nothing else; off the main thread a chosen queue gives an illegal-state exception; otherwise the drain runs; callbacks only ever fire once each |
| GlobalQueue.LaggingRecovers | Core/src/main/java/com/intellectualsites/irongolem/queue/GlobalBlockQueue.java:99-103 | with a positive target time, a skipped tick lowers `lastPeriod`, which stays positive |
| GlobalQueue.PumpDrainsWhenUnhurried | Core/src/main/java/com/intellectualsites/irongolem/queue/GlobalBlockQueue.java:53-68 | when every chunk applies and no period reaches the budget, the loop empties the queue and calls `next()` once per chunk plus one |
| GlobalQueueLegacy.RunTaskLegacy | src/main/java/com/intellectualsites/irongolem/queue/GlobalBlockQueue.java:105-157 | `true` exactly when the call found the scheduler not running, and then it registers one repeating task |
| GlobalQueueLegacy.Stop | src/main/java/com/intellectualsites/irongolem/queue/GlobalBlockQueue.java:97-103 | `false` when not running; otherwise the flag is cleared and the result is `true`; registered tasks and the state are untouched |
| GlobalQueueLegacy.StopThenRunTaskTicksTwice | src/main/java/com/intellectualsites/irongolem/queue/GlobalBlockQueue.java:97-111 | stopping and starting again reports success and registers one more repeating task on the same state, because `stop` cancels none |
| GlobalQueueLegacy.GetStage | src/main/java/com/intellectualsites/irongolem/queue/GlobalBlockQueue.java:159-166 | `ACTIVE` exactly for active queues, `INACTIVE` for inactive ones not also active, `NONE` for the rest |
| GlobalQueueLegacy.IsStage | src/main/java/com/intellectualsites/irongolem/queue/GlobalBlockQueue.java:168-178 | the `NONE` stage holds exactly for queues in neither set |
| GlobalQueueLegacy.StageQueriesAgree | src/main/java/com/intellectualsites/irongolem/queue/GlobalBlockQueue.java:159-178 | `isStage` holds of the stage `getStage` reports, and for a queue not in both sets the two queries agree on every stage |
| GlobalQueueLegacy.EnqueueLegacy | src/main/java/com/intellectualsites/irongolem/queue/GlobalBlockQueue.java:186-193 | the same state change as the newer `enqueue`; `true` exactly when the queue left the inactive set or joined the active one, that is, exactly when a set changed |
| GlobalQueueLegacy.EnqueueThrough | src/main/java/com/intellectualsites/irongolem/queue/DelegateLocalBlockQueue.java:74-79 | a delegate enqueues its parent; without a parent it returns `false` and changes nothing |
| GlobalQueueLegacy.Dequeue | src/main/java/com/intellectualsites/irongolem/queue/GlobalBlockQueue.java:195-198 | afterwards the queue's stage is `NONE`; no other queue moves and nothing else changes |
| GlobalQueueLegacy.GetAllQueues | src/main/java/com/intellectualsites/irongolem/queue/GlobalBlockQueue.java:200-206 | the inactive queues followed by the active ones; its length is the sum of both sizes, and it holds exactly the queues whose stage is not `NONE` |
| GlobalQueueLegacy.AddEmptyTaskLegacy | src/main/java/com/intellectualsites/irongolem/queue/GlobalBlockQueue.java:303-316 | the same state change as the newer `addEmptyTask`; `true` exactly when both sets were empty, and then all callbacks have run |
| GlobalQueueLegacy.Flush | src/main/java/com/intellectualsites/irongolem/queue/GlobalBlockQueue.java:216-251 | a null queue changes nothing; on the main thread an illegal-state exception; otherwise the queue is drained and then leaves both sets; no callback is lost or repeated |
| GlobalQueueLegacy.FlushEmptiesQueue | src/main/java/com/intellectualsites/irongolem/queue/GlobalBlockQueue.java:216-251 | off the main thread, with every chunk applying, a flush empties the queue |
| Restoration.BlockChanges | Core/src/main/java/com/intellectualsites/irongolem/restoration/QueueRestorationHandler.java:112-134 | the changes whose subject has type BLOCK, in their order and never more than the input; when every such subject survives the cast, each kept change has a block subject; each stays valid when the input is |
| Restoration.BlockChangesMembers | Core/src/main/java/com/intellectualsites/irongolem/restoration/QueueRestorationHandler.java:112-134 | a change is kept exactly when it occurs in the input and its subject's type is BLOCK; every other type is skipped |
| Restoration.Restoring | Core/src/main/java/com/intellectualsites/irongolem/restoration/QueueRestorationHandler.java:117-122 | the restoration change for a block change: same location, the given source, reason `RESTORATION`, and a block subject whose new state is the old change's previous block |
| Restoration.RestorationChanges | Core/src/main/java/com/intellectualsites/irongolem/restoration/QueueRestorationHandler.java:110-126 | the first loop succeeds exactly when every change has a subject and every subject of type BLOCK is a block subject; it fails only with a null-pointer exception (a missing subject) or a class-cast exception (a restoration subject of type BLOCK); with every subject present the failure is the class-cast one, and with every cast succeeding it is the null-pointer one |
| Restoration.RestoringAll | Core/src/main/java/com/intellectualsites/irongolem/restoration/QueueRestorationHandler.java:117-123 | one restoration change per block change, the i-th built from the i-th block change and stamped with the i-th clock reading |
| Restoration.RestorationChangesRestore | Core/src/main/java/com/intellectualsites/irongolem/restoration/QueueRestorationHandler.java:110-126 | when every subject is present and survives the cast, which is exactly when the first loop succeeds, the loop yields exactly the restorations of the changes of type BLOCK, in order |
| Restoration.QueuedWrites | Core/src/main/java/com/intellectualsites/irongolem/restoration/QueueRestorationHandler.java:130-140 | one queue write per change of type BLOCK, in order, none for other types; the loop is reached only after the first loop cast every such subject, so its cast cannot fail |
| RestorationQueue.OldBlock | Core/src/main/java/com/intellectualsites/irongolem/restoration/QueueRestorationHandler.java:137-139 | the block written back carries the change's previous block data, and its previous state when one was serialised (none otherwise) |
| Restoration.FillAndEnqueue | Core/src/main/java/com/intellectualsites/irongolem/restoration/QueueRestorationHandler.java:129-141 | a fresh queue that is not auto-queued receives the writes; after `enqueue` it is inactive never and active exactly when it holds chunks; every other queue and the callbacks are untouched |
| Restoration.Restore | Core/src/main/java/com/intellectualsites/irongolem/restoration/QueueRestorationHandler.java:105-143 | a change set that is not distinct gives an illegal-argument exception before anything is logged or queued; a distinct one fails exactly when a subject is missing or a restoration subject has type BLOCK, with a null-pointer or class-cast exception, again before anything is logged or queued; with every subject present it fails with a class-cast exception exactly when some restoration subject has type BLOCK; otherwise the restoration changes are logged, then the queue is filled and enqueued, and only then is the completion task added |
| RestorationQueue.QueuedBlockLands | Core/src/main/java/com/intellectualsites/irongolem/restoration/QueueRestorationHandler.java:130-140 | with distinct positions, each block change at a height the queue accepts leaves its old block pending at its position |
| RestorationQueue.UnnamedPositionUntouched | Core/src/main/java/com/intellectualsites/irongolem/restoration/QueueRestorationHandler.java:130-140 | a position no block change names keeps whatever the queue held there |
| RestorationQueue.NothingLandsKeepsQueue | Core/src/main/java/com/intellectualsites/irongolem/restoration/QueueRestorationHandler.java:130-140 | when no write lands, filling the queue leaves it unchanged |
| RestorationQueue.RestoredQueue | Core/src/main/java/com/intellectualsites/irongolem/restoration/QueueRestorationHandler.java:129-140 | the queue a restoration leaves behind is the fresh queue with every block change's old block written |
| RestorationQueue.RestoredQueueHoldsOldBlocks | Core/src/main/java/com/intellectualsites/irongolem/restoration/QueueRestorationHandler.java:130-140 | the restored queue holds the old block at every position of a block change that lands |
| RestorationQueue.RestoredQueueEmptyElsewhere | Core/src/main/java/com/intellectualsites/irongolem/restoration/QueueRestorationHandler.java:129-140 | the restored queue holds nothing at a position no block change names |
| RestorationQueue.FilledQueueEmptyElsewhere | Core/src/main/java/com/intellectualsites/irongolem/restoration/QueueRestorationHandler.java:129-140 | a fresh queue filled with the recorded writes holds nothing at a position no block change names |
| RestorationQueue.CompletionTiming | Core/src/main/java/com/intellectualsites/irongolem/restoration/QueueRestorationHandler.java:141-142 | the completion task runs at once exactly when the scheduler was idle and no write landed; otherwise it waits and nothing fires |
| JavaLang.Wrap32 | Core/src/main/java/com/intellectualsites/irongolem/queue/ScopedLocalBlockQueue.java:56-58 | `int` arithmetic: the result agrees with the exact value modulo 2^32, and equals it when it fits |
| JavaLang.Wrap64 | Core/src/main/java/com/intellectualsites/irongolem/queue/GlobalBlockQueue.java:104-107 | `long` arithmetic: the result agrees with the exact value modulo 2^64, and equals it when it fits |
| JavaLang.StripDoubleDashes | Core/src/main/java/com/intellectualsites/irongolem/commands/CommandFlags.java:80 | `replace("--", "")` never lengthens a token nor adds a character to it |
| JavaLang.SplitOnComma | Core/src/main/java/com/intellectualsites/irongolem/commands/CommandFlags.java:211 | `split(",")`: no piece contains a comma, and a string without a comma is its own only piece |
| JavaLang.SplitJoinRoundTrip | Core/src/main/java/com/intellectualsites/irongolem/commands/CommandFlags.java:199-211 | splitting the comma-joined spelling of non-empty comma-free pieces gives the pieces back |
| JavaLang.IntToString | Core/src/main/java/com/intellectualsites/irongolem/commands/CommandFlags.java:175-177 | `Integer.toString`: the digits of the number, after a minus sign when it is negative |
| JavaLang.ParseInt | Core/src/main/java/com/intellectualsites/irongolem/commands/CommandFlags.java:163-169 | `Integer.parseInt` succeeds exactly on an optional sign followed by at least one digit whose signed value fits in an `int`, and then yields that value; anything else is a number-format failure |
| JavaLang.ParseIntSigns | Core/src/main/java/com/intellectualsites/irongolem/commands/CommandFlags.java:163-169 | a leading `+` changes nothing, a leading `-` negates, and `-2147483648` parses although `2147483648` does not |
| JavaLang.ParseIntRejectsNonDigit | Core/src/main/java/com/intellectualsites/irongolem/commands/CommandFlags.java:163-169 | any non-digit after the first character makes `Integer.parseInt` fail |
| JavaLang.ParseIntRejectsLeadingJunk | Core/src/main/java/com/intellectualsites/irongolem/commands/CommandFlags.java:163-169 | a first character that is neither a sign nor a digit makes `Integer.parseInt` fail |
| JavaLang.IntToStringRoundTrip | Core/src/main/java/com/intellectualsites/irongolem/commands/CommandFlags.java:163-177 | every `int` reads back from its decimal spelling |
| Aliases.AcceptsAlias | Core/src/main/java/com/intellectualsites/irongolem/commands/CommandFlags.java:122-129 | a name is accepted exactly when it equals some alias up to case |
| Aliases.MainAliasAccepted | Core/src/main/java/com/intellectualsites/irongolem/commands/CommandFlags.java:122-133 | the main alias is accepted in any mix of cases |
| SubCommands.Accepts | Core/src/main/java/com/intellectualsites/irongolem/commands/SubCommand.java:38-45 | a sub-command accepts a name exactly when it equals one of its aliases up to case |
| SubCommands.GetMainAlias | Core/src/main/java/com/intellectualsites/irongolem/commands/SubCommand.java:47-49 | the main alias is one of the aliases and is accepted |
| SubCommands.GetSuggestions | Core/src/main/java/com/intellectualsites/irongolem/commands/SubCommand.java:51-53 | the default suggestions are empty, whatever was typed |
| SubCommands.GetIronGolem | Core/src/main/java/com/intellectualsites/irongolem/commands/SubCommand.java:63-65 | the sub-command is exactly its plugin instance with its aliases |
| SubCommands.GetIronGolemReturnsOwner | Core/src/main/java/com/intellectualsites/irongolem/commands/SubCommand.java:33-65 | the instance read back is the one given to the constructor |
| SubCommands.AcceptsUpToCase | Core/src/main/java/com/intellectualsites/irongolem/commands/SubCommand.java:38-45 | two names equal up to case select the same sub-commands |
| CommandFlags.FindFlag | Core/src/main/java/com/intellectualsites/irongolem/commands/CommandFlags.java:105-112 | the index of the first registered flag that accepts the name; none exactly when no flag accepts it |
| CommandFlags.SameFlag | Core/src/main/java/com/intellectualsites/irongolem/commands/CommandFlags.java:141-150 | equal flags have equal alias lists; flags of the same kind, or two enum flags whatever their enum, are equal exactly when their alias lists are; a boolean flag never equals a flag of another kind |
| CommandFlags.GetFlag | Core/src/main/java/com/intellectualsites/irongolem/commands/CommandFlags.java:105-112 | a registered flag accepting the name, or null exactly when no registered flag accepts it; the older variant, src/main/java/com/intellectualsites/irongolem/commands/CommandFlags.java lines 98-105, is the same |
| CommandFlags.GetFlagFindsAlias | Core/src/main/java/com/intellectualsites/irongolem/commands/CommandFlags.java:105-112 | a name equal up to case to an alias of the k-th flag, not accepted before it, finds that flag |
| CommandFlags.ParseEnum | Core/src/main/java/com/intellectualsites/irongolem/commands/CommandFlags.java:210-222 | succeeds exactly when every comma-separated piece, upper-cased, names a constant, and then gives the set of those constants; otherwise an illegal-argument exception |
| CommandFlags.LookupParts | Core/src/main/java/com/intellectualsites/irongolem/commands/CommandFlags.java:213-220 | the loop over the pieces: the set of their upper-cased names, or an illegal-argument exception at an unknown one |
| CommandFlags.ParseBoolean | Core/src/main/java/com/intellectualsites/irongolem/commands/CommandFlags.java:240-247 | `true` or `false` in any case, giving that value; anything else an illegal-argument exception |
| CommandFlags.Parse | Core/src/main/java/com/intellectualsites/irongolem/commands/CommandFlags.java:163-169 | an integer flag reads exactly what `Integer.parseInt` reads, an enum flag its constant set, a boolean flag its value; every failure is an illegal-argument exception |
| CommandFlags.FlagNamed | Core/src/main/java/com/intellectualsites/irongolem/commands/CommandFlags.java:62-65 | a token shorter than two characters gives a string-index exception; otherwise the flag named by the lower-cased token after its first two characters, or an illegal-argument exception when none is registered |
| CommandFlags.ParsePair | Core/src/main/java/com/intellectualsites/irongolem/commands/CommandFlags.java:60-66 | one `name value` pair gives the flag's main alias and its parsed value, or the first exception on the way |
| CommandFlags.ParsePairs | Core/src/main/java/com/intellectualsites/irongolem/commands/CommandFlags.java:59-67 | the parse loop keeps every key parsed so far; a failure is the failure of some pair |
| CommandFlags.ParseFlags | Core/src/main/java/com/intellectualsites/irongolem/commands/CommandFlags.java:53-69 | no argument or a single one gives the empty map; every failure is an illegal-argument or string-index exception; the older variant, src/main/java/com/intellectualsites/irongolem/commands/CommandFlags.java lines 46-62, is the same |
| CommandFlags.PairShift | Core/src/main/java/com/intellectualsites/irongolem/commands/CommandFlags.java:59 | the pairs after the first two tokens are the remaining pairs, shifted by one |
| CommandFlags.ParsePairsSucceeds | Core/src/main/java/com/intellectualsites/irongolem/commands/CommandFlags.java:59-67 | parsing succeeds exactly when every pair parses |
| CommandFlags.ParsePairsKeys | Core/src/main/java/com/intellectualsites/irongolem/commands/CommandFlags.java:59-67 | the parsed keys are exactly the main aliases of the pairs |
| CommandFlags.ParsePairsLastWins | Core/src/main/java/com/intellectualsites/irongolem/commands/CommandFlags.java:66 | every pair's key is in the result, and the value kept for a key is the one of its last pair |
| CommandFlags.ParsePairsValueKept | Core/src/main/java/com/intellectualsites/irongolem/commands/CommandFlags.java:66 | a key no pair names keeps its value |
| CommandFlags.ParsePairsIgnoresOddToken | Core/src/main/java/com/intellectualsites/irongolem/commands/CommandFlags.java:59 | a trailing token without a value is ignored |
| CommandFlags.IntegerSuggestions | Core/src/main/java/com/intellectualsites/irongolem/commands/CommandFlags.java:175-177 | the 99 numbers 1 to 99, in order, spelled in decimal |
| CommandFlags.IntegerSuggestionsParse | Core/src/main/java/com/intellectualsites/irongolem/commands/CommandFlags.java:163-177 | each integer suggestion parses back to its number |
| CommandFlags.ArrangementsMembers | Core/src/main/java/com/intellectualsites/irongolem/commands/CommandFlags.java:189-207 | the arrangements built are exactly the non-empty orderings, without repetition, of distinct constants |
| CommandFlags.ArrangementsFromMembers | Core/src/main/java/com/intellectualsites/irongolem/commands/CommandFlags.java:189-207 | the arrangements starting from the i-th constant on are exactly those whose first element is one of those constants |
| CommandFlags.EnumSuggestions | Core/src/main/java/com/intellectualsites/irongolem/commands/CommandFlags.java:189-207 | one suggestion per arrangement, spelled as its lower-cased names joined by commas |
| CommandFlags.EnumSuggestionsParse | Core/src/main/java/com/intellectualsites/irongolem/commands/CommandFlags.java:189-222 | each enum suggestion parses back to the set of constants it spells |
| CommandFlags.SpelledParses | Core/src/main/java/com/intellectualsites/irongolem/commands/CommandFlags.java:199-222 | the comma-joined lower-cased spelling of an arrangement parses to its constants |
| CommandFlags.Suggestions | Core/src/main/java/com/intellectualsites/irongolem/commands/CommandFlags.java:135-137 | a boolean flag keeps the empty default |
| CommandFlags.EnteredFlag | Core/src/main/java/com/intellectualsites/irongolem/commands/CommandFlags.java:79-84 | only a token starting with "--" names an entered flag, the one its lower-cased form with every "--" removed selects |
| CommandFlags.EnteredFlags | Core/src/main/java/com/intellectualsites/irongolem/commands/CommandFlags.java:77-85 | exactly the flags named by some earlier token |
| CommandFlags.OfferFlags | Core/src/main/java/com/intellectualsites/irongolem/commands/CommandFlags.java:86-91 | exactly the dashed main aliases of the flags not yet entered whose lower-cased form starts with the typed text as typed, in registration order |
| CommandFlags.FilterSuggestions | Core/src/main/java/com/intellectualsites/irongolem/commands/CommandFlags.java:96-99 | exactly the suggestions that start with the typed text, both compared in lower case, in their order |
| CommandFlags.CompleteFlags | Core/src/main/java/com/intellectualsites/irongolem/commands/CommandFlags.java:71-103 | with no arguments every dashed main alias, in registration order; with an odd count the flags not yet entered matching the last token, in registration order; with an even count the matching suggestions of the flag named before the last token, in their order, or nothing; the older variant, src/main/java/com/intellectualsites/irongolem/commands/CommandFlags.java lines 64-96, is the same |
| CommandFlags.EnteredFlagNotOffered | Core/src/main/java/com/intellectualsites/irongolem/commands/CommandFlags.java:77-91 | a flag entered earlier is never offered again, nor any flag equal to it |
| CommandFlags.FreshFlagOffered | Core/src/main/java/com/intellectualsites/irongolem/commands/CommandFlags.java:77-91 | a registered flag not yet entered whose dashed alias starts with the typed text is offered |

## Left out

- Threads, locks and `ConcurrentLinkedDeque` semantics are left out. Every operation is one sequential step. The `ConcurrentModificationException` catch in `getNextQueue` cannot fire without concurrency and is not modelled.
- Object identity between a wrapper and its parent queue is not modelled. `DelegateLocalBlockQueue` (DelegateLocalBlockQueue.java:32-39, 74-79) holds a reference to the same queue object the global scheduler holds. The `QueueWrappers.Delegate` and `QueueWrappers.Scoped` values hold their own copy of the parent `Queue`. A write through `QueueWrappers.DelegateSetBlock` or `QueueWrappers.ScopedSetBlock` updates that copy only, and no contract ties it to the scheduler's queue of the same id. `GlobalQueueLegacy.EnqueueThrough` takes that id as a separate argument. A caller that keeps the two in step has to store the wrapper's parent back into the scheduler's queue map itself.
- The race in `BasicLocalBlockQueue.setBlock`, where two threads create the same chunk, needs concurrency and is left out.
- With `PARALLEL_THREADS > 1`, several threads run SET_TASK on the same queue. Only the single-thread drain is modelled.
- The wall clock, `Bukkit.isPrimaryThread` and the scheduler's tick interval are inputs. Ticks are modelled one at a time, not their timing.
- Writing blocks into the world (`LocalChunk` application, `getBlock`) is left out. Whether applying a chunk succeeds is an input.
- JDBC is left out. SQLite is an in-memory table, and whether a database call fails is an input.
- SQL `LIMIT` without `ORDER BY` leaves the order to SQLite. The model returns rows in ascending `event_id` order and proves nothing about the order.
- The older `SQLiteLogger` in the plugin module is not part of this model.
- The NBT codec and gzip are left out. A compound tag is identified with the bytes `NBTUtils.compoundToBytes` produces, and the `IOException` path of that method is not modelled.
- Blocks.BytesToCompound: only byte arrays that `compoundToBytes` produced are modelled. For other non-empty bytes `bytesToCompound` catches the decoding exception and returns the empty tag; the model instead decodes every byte array to a tag with those bytes, so `Blocks.WrapperOfBytes` and the subjects rebuilt by `SubjectFactory` never meet a corrupt column.
- The gzip framing of `NBTUtils.compoundToBytes` (NBTUtils.java:45-48) is not modelled: it returns the buffer's bytes inside the `try` block, before the `GZIPOutputStream` is finished and closed, so for a small tag the bytes may hold little more than the gzip header, and `bytesToCompound` would then fall back to the empty tag. This is plausible but unconfirmed, since the codec is outside the model; the model assumes that encoding a non-empty tag gives bytes that decode back to it.
- Which strings `Bukkit.createBlockData` parses is not modelled: it is an input, the set of parseable block-state strings.
- Case folding covers ASCII letters only. Java's Unicode tables and the default locale in `toLowerCase()` are not modelled.
- `Integer.parseInt` accepts ASCII digits only. Other Unicode digits are not modelled.
- The iteration order of Guava's `Sets.powerSet` and `Collections2.permutations` is not modelled. `CommandFlags.EnumSuggestions` fixes its own order, and its lemmas speak of the set of arrangements.
- The iteration order of the `Changes` multimap's `values()` is taken to be insertion order.
- `null` arguments to `@NotNull` parameters are not modelled.
- The `PointRegion`, `ChangeType` and `ChangeReason` declarations are not part of this model. Only the constants the core uses are modelled.
- The change logger's `logChanges` is not modelled: `restore` returns the changes it hands over. `TaskManager.sync` is taken to run its function and return the value.
- `BlockSubject.of(Block, BlockWrapper)`, used by `restore`, is not part of this model. The world's current block is an input to `Restoration.Restoring`.
- Locations with fractional coordinates are not modelled. Positions are block coordinates (`getBlockX/Y/Z`).
- `lastPeriod` is a `double` in the source. It only ever holds differences of `long` timestamps and `targetTime` subtractions, so it is modelled as an integer.
- The copying accessors `getActiveQueues` and `getInactiveQueues`, the queue provider's getter and setter, and `getBukkitRunnable` return internal state and are not modelled.
- `registerFlag` appends to the registered flags. A registry is modelled as the sequence of its flags, in registration order.
- Flags and sub-commands with no aliases are not modelled. `getMainAlias` reads the first alias unguarded, so an alias list is non-empty by type.
- The restoration handler's constructor and the concrete command handlers are not part of this model.
- Geometry.Width: states the result only when the extent fits in an `int`. Beyond that the source wraps around, which the model computes (`Wrap32`) but states nothing about.
- Geometry.Height: the same as `Geometry.Width`, for the y axis.
- Geometry.Depth: the same as `Geometry.Width`, for the z axis.
- Geometry.Size: states the result only when the three extents fit in an `int` and their product fits in a `long`.

## Findings

| source | as written | input that shows it | evidently intended | confidence | as-written member | corrected member |
|---|---|---|---|---|---|---|
| Core/src/main/java/com/intellectualsites/irongolem/logging/ScheduledQueuingChangeLogger.java:98-126 | `loggedChanges` counts every change of the run and is never reset when a batch is finished, so after the first full batch every change finishes its own batch | maximum batch size 2 and five queued changes: batches of 2, 1, 1, 1 | the counter restarts with each batch: batches of 2, 2, 1 | not executed | ChangeLogger.AsWrittenBatchesShrink | ChangeLogger.RunMakesFullBatches |
| Core/src/main/java/com/intellectualsites/irongolem/changes/BlockSubject.java:91-96 | `serializeNewState` is guarded by `oldFull`, the flag of the old tag | an air block (empty tag) replaced by a chest with a non-empty tag: the new tag is written as no bytes and lost on reading back | the guard tests `newFull`, as `serializeOldState` tests `oldFull` | not executed | Subjects.BlockSubjectColumnsAsWrittenFails | Subjects.BlockSubjectColumnsRoundTrip |
