/**
 * The SQLite change store (`SQLiteLogger`), over an in-memory `events` table.
 *
 * Writing: `startBatch` prepares the 12-column INSERT, `persist` binds one
 * change and adds it to the batch, `finishBatch` executes the batch.
 *
 * Reading: `queryChanges` renders a SELECT with positional parameters, binds
 * them, and turns every returned row back into a change, skipping rows whose
 * source or subject cannot be rebuilt.
 *
 * The connection, the JDBC driver and SQLite itself are not part of this
 * model: the SELECT is given its meaning over a list of rows, the rows kept in
 * ascending `event_id` order, and a failing database call is an input flag.
 */
module SQLiteStore {
  import opened Wrappers
  import opened JavaLang
  import opened Geometry
  import opened Blocks
  import opened Subjects
  import opened ChangeModel
  import opened Query

  // ---------------------------------------------------------------------------
  // The table

  /** One row of the `events` table. */
  datatype Row = Row(
    eventId: int,
    world: string,
    x: int,
    y: int,
    z: int,
    timestamp: int,
    source: string,
    changeType: string,
    from: string,
    to: string,
    oldState: seq<byte>,
    newState: seq<byte>,
    reason: string)

  /** `event_id` is an autoincrement primary key: the rows are kept in strictly increasing id order. */
  ghost predicate ValidTable(t: seq<Row>) {
    forall i, j :: 0 <= i < j < |t| ==> t[i].eventId < t[j].eventId
  }

  /** A value bound to a `?` placeholder. */
  datatype SqlValue = Str(s: string) | Int(i: int) | Bytes(b: seq<byte>)

  // ---------------------------------------------------------------------------
  // Writing: persist, startBatch, finishBatch

  /** The column list of the INSERT statement, in placeholder order. */
  const INSERT_COLUMNS: seq<string> :=
    ["world", "x", "y", "z", "timestamp", "source", "type", "from", "to", "old_state", "new_state", "reason"]

  /** The value a row holds in the named column. */
  function ColumnValue(r: Row, column: string): SqlValue {
    match column
    case "world" => Str(r.world)
    case "x" => Int(r.x)
    case "y" => Int(r.y)
    case "z" => Int(r.z)
    case "timestamp" => Int(r.timestamp)
    case "source" => Str(r.source)
    case "type" => Str(r.changeType)
    case "from" => Str(r.from)
    case "to" => Str(r.to)
    case "old_state" => Bytes(r.oldState)
    case "new_state" => Bytes(r.newState)
    case "reason" => Str(r.reason)
    case _ => Int(r.eventId)
  }

  /** Twelve values of the shapes the INSERT columns take. */
  predicate WellShaped(v: seq<SqlValue>) {
    && |v| == 12
    && v[0].Str? && v[1].Int? && v[2].Int? && v[3].Int? && v[4].Int?
    && v[5].Str? && v[6].Str? && v[7].Str? && v[8].Str?
    && v[9].Bytes? && v[10].Bytes? && v[11].Str?
  }

  /** The twelve values in the INSERT's placeholder order. */
  function InsertValues(world: string, x: int, y: int, z: int, timestamp: int, source: string, changeType: string,
                        from: string, to: string, oldState: seq<byte>, newState: seq<byte>, reason: string): (v: seq<SqlValue>)
    ensures WellShaped(v)
  {
    [Str(world), Int(x), Int(y), Int(z), Int(timestamp), Str(source), Str(changeType),
     Str(from), Str(to), Bytes(oldState), Bytes(newState), Str(reason)]
  }

  /** The twelve values `persist` binds, or the null-pointer exception of a change without a subject. */
  function PersistValues(c: Change): (r: Result<seq<SqlValue>, Throwable>)
    requires c.subject.Some? ==> c.subject.value.Valid()
    ensures r.Ok? <==> c.subject.Some?
    ensures r.Ok? ==> |r.value| == |INSERT_COLUMNS| && WellShaped(r.value)
  {
    match c.subject
    case None => Err(NullPointerException("subject"))
    case Some(s) =>
      Ok(InsertValues(c.location.world, c.location.x as int, c.location.y as int, c.location.z as int,
                      c.timestamp as int, c.source.name, GetType(s).name, SerializeFrom(s), SerializeTo(s),
                      SubjectOldState(s), SubjectNewState(s), c.reason.name))
  }

  /** The row the INSERT stores for bound values `v` under a fresh id. */
  function InsertedRow(id: int, v: seq<SqlValue>): (r: Row)
    requires WellShaped(v)
    ensures r.eventId == id
    ensures forall k :: 0 <= k < 12 ==> ColumnValue(r, INSERT_COLUMNS[k]) == v[k]
  {
    Row(id, v[0].s, v[1].i, v[2].i, v[3].i, v[4].i, v[5].s, v[6].s, v[7].s, v[8].s, v[9].b, v[10].b, v[11].s)
  }

  /** The row a persisted change becomes. */
  function PersistedRow(id: int, c: Change): (r: Row)
    requires c.subject.Some? && c.subject.value.Valid()
  {
    InsertedRow(id, PersistValues(c).value)
  }

  /**
   * `persist` binds, in placeholder order, the world name, the block x, y and z,
   * the timestamp, the source name, the subject type, from, to, the old state,
   * the new state and the reason name.
   */
  lemma PersistColumnOrder(id: int, c: Change)
    requires c.subject.Some? && c.subject.value.Valid()
    ensures var r := PersistedRow(id, c); var s := c.subject.value;
      && r.world == c.location.world
      && r.x == c.location.x as int && r.y == c.location.y as int && r.z == c.location.z as int
      && r.timestamp == c.timestamp as int
      && r.source == c.source.name
      && r.changeType == GetType(s).name
      && r.from == SerializeFrom(s) && r.to == SerializeTo(s)
      && r.oldState == SubjectOldState(s) && r.newState == SubjectNewState(s)
      && r.reason == c.reason.name
  {
    var v := PersistValues(c).value;
    var r := PersistedRow(id, c);
    assert ColumnValue(r, INSERT_COLUMNS[0]) == v[0];
    assert ColumnValue(r, INSERT_COLUMNS[11]) == v[11];
  }

  /**
   * The store: the table, the prepared INSERT statement with its batch of bound
   * value lists (`None` when there is no statement), and the next id to assign.
   */
  datatype Store = Store(table: seq<Row>, statement: Option<seq<seq<SqlValue>>>, nextId: int)

  ghost predicate ValidStore(s: Store) {
    && ValidTable(s.table)
    && (forall i :: 0 <= i < |s.table| ==> s.table[i].eventId < s.nextId)
    && (s.statement.Some? ==> forall k :: 0 <= k < |s.statement.value| ==> WellShaped(s.statement.value[k]))
  }

  /** What a call left behind: the new store state and, if the call threw, the exception. */
  datatype Outcome = Outcome(store: Store, thrown: Option<Throwable>)

  /**
   * `startBatch`: prepares a fresh INSERT statement with an empty batch; a
   * statement already present is replaced and its batch dropped. When
   * preparing fails (`prepareOk` false) the exception propagates and nothing
   * changes.
   */
  function StartBatch(s: Store, prepareOk: bool): (r: Outcome)
    ensures prepareOk ==> r.thrown.None? && r.store == s.(statement := Some([]))
    ensures !prepareOk ==> r.thrown.Some? && r.store == s
  {
    if prepareOk then Outcome(s.(statement := Some([])), None)
    else Outcome(s, Some(SQLException("prepareStatement")))
  }

  /**
   * `persist`: appends the change's values to the batch. Without a statement,
   * or for a change without a subject, it throws a null-pointer exception and
   * the batch is unchanged.
   */
  function Persist(s: Store, c: Change): (r: Outcome)
    requires c.subject.Some? ==> c.subject.value.Valid()
    ensures r.thrown.None? <==> s.statement.Some? && c.subject.Some?
    ensures r.thrown.None? ==> r.store == s.(statement := Some(s.statement.value + [PersistValues(c).value]))
    ensures r.thrown.Some? ==> r.store == s
  {
    if s.statement.None? then Outcome(s, Some(NullPointerException("statement")))
    else match PersistValues(c)
      case Err(e) => Outcome(s, Some(e))
      case Ok(v) => Outcome(s.(statement := Some(s.statement.value + [v])), None)
  }

  /** The rows a batch inserts, with consecutive ids from `id`. */
  function InsertAll(id: int, batch: seq<seq<SqlValue>>): (rows: seq<Row>)
    requires forall k :: 0 <= k < |batch| ==> WellShaped(batch[k])
    ensures |rows| == |batch|
    ensures forall k :: 0 <= k < |rows| ==> rows[k] == InsertedRow(id + k, batch[k])
    decreases |batch|
  {
    if |batch| == 0 then [] else [InsertedRow(id, batch[0])] + InsertAll(id + 1, batch[1..])
  }

  /**
   * `finishBatch`: with a statement, executes its batch (appending one row per
   * bound value list) and then clears the statement; without one, only clears.
   * When executing throws (`executeOk` false), the assignment that clears the
   * statement is skipped: the exception propagates with the statement and its
   * batch still in place.
   */
  function FinishBatch(s: Store, executeOk: bool): (r: Outcome)
    requires ValidStore(s)
    ensures ValidStore(r.store)
    ensures s.statement.None? ==> r.thrown.None? && r.store == s
    ensures s.statement.Some? && executeOk ==>
      && r.thrown.None? && r.store.statement.None?
      && r.store.table == s.table + InsertAll(s.nextId, s.statement.value)
    ensures s.statement.Some? && !executeOk ==> r.thrown.Some? && r.store == s
  {
    match s.statement
    case None => Outcome(s, None)
    case Some(batch) =>
      if executeOk then
        var rows := InsertAll(s.nextId, batch);
        var s' := Store(s.table + rows, None, s.nextId + |batch|);
        assert ValidTable(s'.table) by {
          forall i, j | 0 <= i < j < |s'.table|
            ensures s'.table[i].eventId < s'.table[j].eventId
          {
            if j >= |s.table| && i < |s.table| {
              assert s'.table[i] == s.table[i];
            }
          }
        }
        Outcome(s', None)
      else Outcome(s, Some(SQLException("executeBatch")))
  }

  // ---------------------------------------------------------------------------
  // Reading: the SELECT text and its bindings

  /** A piece of the SELECT: literal text, or a `?` placeholder. */
  datatype Fragment = Text(text: string) | Param

  /** Literal text followed by one placeholder. */
  function Clause(t: string): seq<Fragment> {
    [Text(t), Param]
  }

  /** The seven-placeholder box test on world and coordinates, after `lead`. */
  function BoxFragments(lead: string): seq<Fragment> {
    Clause(lead)
    + Clause(" AND `x` >= ") + Clause(" AND `x` <= ")
    + Clause(" AND `y` >= ") + Clause(" AND `y` <= ")
    + Clause(" AND `z` >= ") + Clause(" AND `z` <= ")
  }

  const SELECT_LEAD: string := "SELECT * FROM `events` WHERE `world` = "
  const DISTINCT_LEAD: string := " AND `event_id` IN (" + "SELECT MIN(`event_id`) " + "FROM `events` WHERE `world` = "
  const DISTINCT_TAIL: string := " GROUP BY `world`, `x`, `y`, `z`)"

  /** The quoted reason names joined by `", "`. */
  function ReasonList(reasons: seq<ChangeReason>): (r: string)
    ensures |reasons| == 0 ==> r == ""
  {
    if |reasons| == 0 then ""
    else if |reasons| == 1 then "'" + reasons[0].name + "'"
    else "'" + reasons[0].name + "', " + ReasonList(reasons[1..])
  }

  function DistinctPart(q: ChangeQuery): seq<Fragment> {
    if q.distinct then BoxFragments(DISTINCT_LEAD) + [Text(DISTINCT_TAIL)] else []
  }

  function ReasonPart(q: ChangeQuery): seq<Fragment> {
    [Text(" AND `reason` IN (" + ReasonList(q.reasons) + ")")]
  }

  function SourcePart(q: ChangeQuery): seq<Fragment> {
    if q.source.Some? then Clause(" AND `source` = ") else []
  }

  /** The SELECT `queryChanges` builds, piece by piece. */
  function SelectFragments(q: ChangeQuery): seq<Fragment> {
    BoxFragments(SELECT_LEAD) + DistinctPart(q) + ReasonPart(q) + SourcePart(q) + Clause(" LIMIT ")
  }

  /** The SQL text: every placeholder written as `?`. */
  function Render(f: seq<Fragment>): string {
    if |f| == 0 then ""
    else (match f[0] case Text(t) => t case Param => "?") + Render(f[1..])
  }

  function CountParams(f: seq<Fragment>): nat {
    if |f| == 0 then 0 else (if f[0].Param? then 1 else 0) + CountParams(f[1..])
  }

  /** The number of `?` characters in a string. */
  function CountMarks(s: string): nat {
    if |s| == 0 then 0 else (if s[0] == '?' then 1 else 0) + CountMarks(s[1..])
  }

  /** The seven values of the box test. */
  function BoxBindings(world: string, r: CuboidRegion): seq<SqlValue> {
    [Str(world),
     Int(r.minimumPoint.x), Int(r.maximumPoint.x),
     Int(r.minimumPoint.y), Int(r.maximumPoint.y),
     Int(r.minimumPoint.z), Int(r.maximumPoint.z)]
  }

  /** The values `queryChanges` binds, in index order. */
  function SelectBindings(q: ChangeQuery): (b: seq<SqlValue>)
    requires CheckQuery(q).Ok?
  {
    BoxBindings(q.world.value, q.region.value)
    + (if q.distinct then BoxBindings(q.world.value, q.region.value) else [])
    + (if q.source.Some? then [Str(q.source.value.name)] else [])
    + [Int(q.limit)]
  }

  lemma {:induction false} CountParamsAppend(a: seq<Fragment>, b: seq<Fragment>)
    ensures CountParams(a + b) == CountParams(a) + CountParams(b)
  {
    if |a| > 0 {
      assert (a + b)[0] == a[0];
      assert (a + b)[1..] == a[1..] + b;
      CountParamsAppend(a[1..], b);
    } else {
      assert a + b == b;
    }
  }

  lemma ClauseParams(t: string)
    ensures CountParams(Clause(t)) == 1
  {
    var c := Clause(t);
    assert c[1..] == [Param];
    assert [Param][1..] == [];
    assert CountParams([Param]) == 1;
  }

  lemma BoxParams(lead: string)
    ensures CountParams(BoxFragments(lead)) == 7
  {
    var c0, c1, c2, c3 := Clause(lead), Clause(" AND `x` >= "), Clause(" AND `x` <= "), Clause(" AND `y` >= ");
    var c4, c5, c6 := Clause(" AND `y` <= "), Clause(" AND `z` >= "), Clause(" AND `z` <= ");
    ClauseParams(lead); ClauseParams(" AND `x` >= "); ClauseParams(" AND `x` <= ");
    ClauseParams(" AND `y` >= "); ClauseParams(" AND `y` <= ");
    ClauseParams(" AND `z` >= "); ClauseParams(" AND `z` <= ");
    CountParamsAppend(c0, c1);
    CountParamsAppend(c0 + c1, c2);
    CountParamsAppend(c0 + c1 + c2, c3);
    CountParamsAppend(c0 + c1 + c2 + c3, c4);
    CountParamsAppend(c0 + c1 + c2 + c3 + c4, c5);
    CountParamsAppend(c0 + c1 + c2 + c3 + c4 + c5, c6);
  }

  /**
   * The statement has exactly as many placeholders as values are bound —
   * `7 + 7·[distinct] + [source set] + 1` — and its last two pieces are the
   * `LIMIT` placeholder, which receives the last value, the limit.
   */
  lemma PlaceholdersMatchBindings(q: ChangeQuery)
    requires CheckQuery(q).Ok?
    ensures CountParams(SelectFragments(q)) == |SelectBindings(q)|
    ensures |SelectBindings(q)| == 7 + (if q.distinct then 7 else 0) + (if q.source.Some? then 1 else 0) + 1
    ensures SelectBindings(q)[|SelectBindings(q)| - 1] == Int(q.limit)
    ensures SelectFragments(q)[|SelectFragments(q)| - 2..] == [Text(" LIMIT "), Param]
  {
    var box, dist, reason, src, lim := BoxFragments(SELECT_LEAD), DistinctPart(q), ReasonPart(q), SourcePart(q), Clause(" LIMIT ");
    BoxParams(SELECT_LEAD);
    assert CountParams(dist) == if q.distinct then 7 else 0 by {
      if q.distinct {
        BoxParams(DISTINCT_LEAD);
        CountParamsAppend(BoxFragments(DISTINCT_LEAD), [Text(DISTINCT_TAIL)]);
      }
    }
    assert CountParams(reason) == 0;
    assert CountParams(src) == if q.source.Some? then 1 else 0 by {
      if q.source.Some? {
        ClauseParams(" AND `source` = ");
      }
    }
    ClauseParams(" LIMIT ");
    CountParamsAppend(box, dist);
    CountParamsAppend(box + dist, reason);
    CountParamsAppend(box + dist + reason, src);
    CountParamsAppend(box + dist + reason + src, lim);
    var f := box + dist + reason + src + lim;
    assert f[|f| - 2..] == lim;
  }

  /** No placeholder character inside any literal piece. */
  predicate NoMarkInText(f: seq<Fragment>) {
    forall k :: 0 <= k < |f| ==> f[k].Text? ==> '?' !in f[k].text
  }

  lemma NoMarkAppend(a: seq<Fragment>, b: seq<Fragment>)
    requires NoMarkInText(a) && NoMarkInText(b)
    ensures NoMarkInText(a + b)
  {
    forall k | 0 <= k < |a + b| && (a + b)[k].Text? ensures '?' !in (a + b)[k].text {
      if k >= |a| {
        assert (a + b)[k] == b[k - |a|];
      }
    }
  }

  lemma {:induction false} CountMarksAppend(a: string, b: string)
    ensures CountMarks(a + b) == CountMarks(a) + CountMarks(b)
  {
    if |a| > 0 {
      assert (a + b)[0] == a[0];
      assert (a + b)[1..] == a[1..] + b;
      CountMarksAppend(a[1..], b);
    } else {
      assert a + b == b;
    }
  }

  lemma {:induction false} CountMarksNone(s: string)
    requires '?' !in s
    ensures CountMarks(s) == 0
  {
    if |s| > 0 {
      assert s[0] in s;
      assert '?' !in s[1..];
      CountMarksNone(s[1..]);
    }
  }

  /** Rendering writes one `?` per placeholder and no other. */
  lemma {:induction false} RenderMarks(f: seq<Fragment>)
    requires NoMarkInText(f)
    ensures CountMarks(Render(f)) == CountParams(f)
  {
    if |f| > 0 {
      var head := match f[0] case Text(t) => t case Param => "?";
      assert Render(f) == head + Render(f[1..]);
      CountMarksAppend(head, Render(f[1..]));
      if f[0].Text? {
        CountMarksNone(f[0].text);
      }
      assert NoMarkInText(f[1..]) by {
        forall k | 0 <= k < |f[1..]| && f[1..][k].Text? ensures '?' !in f[1..][k].text {
          assert f[1..][k] == f[k + 1];
        }
      }
      RenderMarks(f[1..]);
    }
  }

  lemma {:induction false} ReasonListNoMark(reasons: seq<ChangeReason>)
    requires forall k :: 0 <= k < |reasons| ==> '?' !in reasons[k].name
    ensures '?' !in ReasonList(reasons)
  {
    if |reasons| > 1 {
      ReasonListNoMark(reasons[1..]);
    }
  }

  lemma LeadsHaveNoMark()
    ensures '?' !in SELECT_LEAD && '?' !in DISTINCT_LEAD && '?' !in DISTINCT_TAIL
  {
    SelectLeadHasNoMark();
    DistinctTailHasNoMark();
    assert '?' !in " AND `event_id` IN (";
    assert '?' !in "SELECT MIN(`event_id`) ";
    assert '?' !in "FROM `events` WHERE `world` = ";
  }

  lemma SelectLeadHasNoMark()
    ensures '?' !in SELECT_LEAD
  {
  }

  lemma DistinctTailHasNoMark()
    ensures '?' !in DISTINCT_TAIL
  {
  }

  lemma ComparisonsHaveNoMark()
    ensures '?' !in " AND `x` >= " && '?' !in " AND `x` <= "
    ensures '?' !in " AND `y` >= " && '?' !in " AND `y` <= "
    ensures '?' !in " AND `z` >= " && '?' !in " AND `z` <= "
  {
  }

  lemma TailsHaveNoMark()
    ensures '?' !in " AND `source` = " && '?' !in " LIMIT "
    ensures '?' !in " AND `reason` IN (" && '?' !in ")"
  {
  }

  lemma BoxNoMark(lead: string)
    requires '?' !in lead
    ensures NoMarkInText(BoxFragments(lead))
  {
    ComparisonsHaveNoMark();
    var c0, c1, c2, c3 := Clause(lead), Clause(" AND `x` >= "), Clause(" AND `x` <= "), Clause(" AND `y` >= ");
    var c4, c5, c6 := Clause(" AND `y` <= "), Clause(" AND `z` >= "), Clause(" AND `z` <= ");
    NoMarkAppend(c0, c1);
    NoMarkAppend(c0 + c1, c2);
    NoMarkAppend(c0 + c1 + c2, c3);
    NoMarkAppend(c0 + c1 + c2 + c3, c4);
    NoMarkAppend(c0 + c1 + c2 + c3 + c4, c5);
    NoMarkAppend(c0 + c1 + c2 + c3 + c4 + c5, c6);
  }

  /**
   * The rendered SQL string contains exactly as many `?` characters as values
   * are bound (reason names are enum constants and hold no `?`).
   */
  lemma RenderedSqlMatchesBindings(q: ChangeQuery)
    requires CheckQuery(q).Ok?
    requires forall k :: 0 <= k < |q.reasons| ==> '?' !in q.reasons[k].name
    ensures CountMarks(Render(SelectFragments(q))) == |SelectBindings(q)|
  {
    LeadsHaveNoMark();
    TailsHaveNoMark();
    ReasonListNoMark(q.reasons);
    var box, dist, reason, src, lim := BoxFragments(SELECT_LEAD), DistinctPart(q), ReasonPart(q), SourcePart(q), Clause(" LIMIT ");
    BoxNoMark(SELECT_LEAD);
    if q.distinct {
      BoxNoMark(DISTINCT_LEAD);
      NoMarkAppend(BoxFragments(DISTINCT_LEAD), [Text(DISTINCT_TAIL)]);
    }
    var reasonText := " AND `reason` IN (" + ReasonList(q.reasons) + ")";
    assert '?' !in reasonText by {
      assert forall c :: c in reasonText ==> c in " AND `reason` IN (" || c in ReasonList(q.reasons) || c in ")";
    }
    NoMarkAppend(box, dist);
    NoMarkAppend(box + dist, reason);
    NoMarkAppend(box + dist + reason, src);
    NoMarkAppend(box + dist + reason + src, lim);
    RenderMarks(SelectFragments(q));
    PlaceholdersMatchBindings(q);
  }

  /** With no reasons selected the reason test is `IN ()`, which no row passes. */
  lemma EmptyReasonClause(q: ChangeQuery)
    requires q.reasons == []
    ensures Text(" AND `reason` IN ()") in SelectFragments(q)
  {
    var pre := BoxFragments(SELECT_LEAD) + DistinctPart(q);
    var f := SelectFragments(q);
    assert f == (pre + ReasonPart(q)) + (SourcePart(q) + Clause(" LIMIT "));
    assert (pre + ReasonPart(q))[|pre|] == Text(" AND `reason` IN ()");
    assert f[|pre|] == Text(" AND `reason` IN ()");
  }

  // ---------------------------------------------------------------------------
  // Reading: what the SELECT returns

  /** Row `r` passes the box test on world and inclusive coordinate bounds. */
  predicate InBox(world: string, region: CuboidRegion, r: Row) {
    && r.world == world
    && region.minimumPoint.x <= r.x <= region.maximumPoint.x
    && region.minimumPoint.y <= r.y <= region.maximumPoint.y
    && region.minimumPoint.z <= r.z <= region.maximumPoint.z
  }

  predicate SamePosition(a: Row, b: Row) {
    a.world == b.world && a.x == b.x && a.y == b.y && a.z == b.z
  }

  /**
   * The distinct subquery: `r` has the least `event_id` among the rows of the
   * table at its position that pass the box test. The subquery applies no
   * reason or source test.
   */
  ghost predicate OldestInBox(table: seq<Row>, world: string, region: CuboidRegion, r: Row) {
    forall k :: 0 <= k < |table| && InBox(world, region, table[k]) && SamePosition(table[k], r) ==>
      r.eventId <= table[k].eventId
  }

  function ReasonNames(reasons: seq<ChangeReason>): (names: seq<string>)
    ensures |names| == |reasons|
    ensures forall k :: 0 <= k < |reasons| ==> names[k] == reasons[k].name
  {
    if |reasons| == 0 then [] else [reasons[0].name] + ReasonNames(reasons[1..])
  }

  /** The WHERE clause of the SELECT, over row `r` of `table`. */
  ghost predicate Where(table: seq<Row>, q: ChangeQuery, r: Row)
    requires CheckQuery(q).Ok?
  {
    && InBox(q.world.value, q.region.value, r)
    && (q.distinct ==> OldestInBox(table, q.world.value, q.region.value, r))
    && r.reason in ReasonNames(q.reasons)
    && (q.source.Some? ==> r.source == q.source.value.name)
  }

  /** The rows of `rows` that pass the WHERE clause, in table order. */
  ghost function Matching(table: seq<Row>, q: ChangeQuery, rows: seq<Row>): (r: seq<Row>)
    requires CheckQuery(q).Ok?
    ensures |r| <= |rows|
    ensures forall k :: 0 <= k < |r| ==> r[k] in rows && Where(table, q, r[k])
    ensures forall x :: x in rows && Where(table, q, x) ==> x in r
  {
    if |rows| == 0 then []
    else (if Where(table, q, rows[0]) then [rows[0]] else []) + Matching(table, q, rows[1..])
  }

  /**
   * The rows the SELECT returns: the matching rows, at most `limit` of them.
   * SQL promises no order without ORDER BY; the model returns them in table order.
   */
  ghost function Select(table: seq<Row>, q: ChangeQuery): (r: seq<Row>)
    requires CheckQuery(q).Ok?
    ensures |r| <= q.limit as int
    ensures forall k :: 0 <= k < |r| ==>
      && r[k] in table
      && r[k].world == q.world.value
      && q.region.value.minimumPoint.x <= r[k].x <= q.region.value.maximumPoint.x
      && q.region.value.minimumPoint.y <= r[k].y <= q.region.value.maximumPoint.y
      && q.region.value.minimumPoint.z <= r[k].z <= q.region.value.maximumPoint.z
      && r[k].reason in ReasonNames(q.reasons)
      && (q.source.Some? ==> r[k].source == q.source.value.name)
    ensures |Matching(table, q, table)| <= q.limit as int ==> r == Matching(table, q, table)
  {
    var m := Matching(table, q, table);
    if |m| <= q.limit as int then m else m[..q.limit]
  }

  /** A subsequence of a table with increasing ids also has increasing ids. */
  lemma {:induction false} MatchingIncreasing(table: seq<Row>, q: ChangeQuery, rows: seq<Row>)
    requires CheckQuery(q).Ok? && ValidTable(rows)
    ensures ValidTable(Matching(table, q, rows))
  {
    if |rows| > 0 {
      MatchingIncreasing(table, q, rows[1..]);
      var rest := Matching(table, q, rows[1..]);
      forall k | 0 <= k < |rest| ensures rows[0].eventId < rest[k].eventId {
        var j :| 0 <= j < |rows[1..]| && rest[k] == rows[1..][j];
        assert rest[k] == rows[j + 1];
      }
    }
  }

  /** With `distinct`, no two returned rows share a position. */
  lemma DistinctSelectOnePerPosition(table: seq<Row>, q: ChangeQuery)
    requires CheckQuery(q).Ok? && ValidTable(table) && q.distinct
    ensures forall i, j :: 0 <= i < j < |Select(table, q)| ==> !SamePosition(Select(table, q)[i], Select(table, q)[j])
  {
    var m := Matching(table, q, table);
    MatchingIncreasing(table, q, table);
    var r := Select(table, q);
    forall i, j | 0 <= i < j < |r| ensures !SamePosition(r[i], r[j]) {
      assert r[i] == m[i] && r[j] == m[j];
      OlderRowAtPosition(table, q.world.value, q.region.value, m[i], m[j]);
    }
  }

  /** A row with a smaller id at the same position keeps a later row from being the oldest there. */
  lemma OlderRowAtPosition(table: seq<Row>, world: string, region: CuboidRegion, a: Row, b: Row)
    requires a in table && InBox(world, region, a) && a.eventId < b.eventId
    ensures OldestInBox(table, world, region, b) ==> !SamePosition(a, b)
  {
    var k :| 0 <= k < |table| && table[k] == a;
  }

  const EXAMPLE_WORLD: string := "world"

  function ExampleRow(id: int, reason: string): Row {
    Row(id, EXAMPLE_WORLD, 0, 64, 0, 0, "player", "BLOCK", "a", "b", [], [], reason)
  }

  /**
   * The distinct subquery ignores the reason filter: when the oldest change
   * at a position has an unselected reason, a later change there with a
   * selected reason is not returned either.
   */
  lemma DistinctIgnoresReasonFilter()
    ensures var q := ChangeQuery(Some(PointRegion(Vector(0, 64, 0))), Some(EXAMPLE_WORLD), 10, true,
                                 [BLOCK_PLACE], None);
      var table := [ExampleRow(1, "BLOCK_BREAK"), ExampleRow(2, "BLOCK_PLACE")];
      && CheckQuery(q).Ok?
      && (q.distinct == false ==> Select(table, q) == [table[1]])
      && Select(table, q) == []
  {
    var q := ChangeQuery(Some(PointRegion(Vector(0, 64, 0))), Some(EXAMPLE_WORLD), 10, true, [BLOCK_PLACE], None);
    var table := [ExampleRow(1, "BLOCK_BREAK"), ExampleRow(2, "BLOCK_PLACE")];
    assert ReasonNames(q.reasons) == ["BLOCK_PLACE"];
    assert !Where(table, q, table[0]);
    assert InBox(q.world.value, q.region.value, table[0]) && SamePosition(table[0], table[1]);
    assert !OldestInBox(table, q.world.value, q.region.value, table[1]);
    assert !Where(table, q, table[1]);
    assert Matching(table, q, table[1..]) == [];
  }

  // ---------------------------------------------------------------------------
  // Reading: rows back to changes

  /** What happens to one returned row. */
  datatype RowOutcome =
    | Keep(change: Change)       // rebuilt and added to the list
    | Skip                       // unknown source or no subject: logged and skipped
    | Escape(error: Throwable)   // an exception that is not an SQLException

  /**
   * The registries the decoding consults: source names to sources
   * (`SourceFactory`, absent name = null), the declared names of the two
   * enums, and the block-state strings `Bukkit.createBlockData` accepts.
   */
  datatype Registry = Registry(sources: map<string, ChangeSource>, types: set<string>, reasons: set<string>,
                               blockStates: set<string>)

  /**
   * One iteration of the row loop: source lookup (unknown: skip), subject
   * rebuild (undeclared type or unparseable block state: exception; non-BLOCK
   * type: skip), then the
   * builder with the row's timestamp and `ChangeReason.valueOf` on the reason
   * column (undeclared: exception). `getInt` narrows the stored coordinates
   * to `int`.
   */
  function DecodeRow(reg: Registry, now: i64, r: Row): (o: RowOutcome)
    ensures r.source !in reg.sources ==> o == Skip
    ensures o.Keep? ==>
      && o.change.source == reg.sources[r.source]
      && o.change.location == Location(r.world, Wrap32(r.x), Wrap32(r.y), Wrap32(r.z))
      && o.change.timestamp == Wrap64(r.timestamp)
      && o.change.reason.name == r.reason
      && o.change.subject.Some? && o.change.subject.value.Block?
      && o.change.subject.value.Valid()
    ensures o.Keep? <==> r.source in reg.sources && r.changeType in reg.types
                         && r.changeType == BLOCK.name && r.from in reg.blockStates
                         && r.to in reg.blockStates && r.reason in reg.reasons
    ensures o.Escape? ==> o.error.IllegalArgumentException?
  {
    var location := Location(r.world, Wrap32(r.x), Wrap32(r.y), Wrap32(r.z));
    if r.source !in reg.sources then Skip
    else
      var source := reg.sources[r.source];
      match GetSubject(reg.types, reg.blockStates, r.changeType, r.from, r.to, r.oldState, r.newState)
      case Err(e) => Escape(e)
      case Ok(None) => Skip
      case Ok(Some(subject)) =>
        match ReasonValueOf(reg.reasons, r.reason)
        case Err(e) => Escape(e)
        case Ok(reason) =>
          var b := WithSubject(WithReason(WithSource(AtTime(ChangeModel.AtLocation(NewBuilder(now), location),
                                                            Wrap64(r.timestamp)), source), reason), subject);
          Keep(Build(b).value)
  }

  /** How the future returned by `queryChanges` ends. */
  datatype QueryOutcome =
    | Completed(changes: seq<Change>)   // `future.complete(changes)`
    | Failed(error: Throwable)          // `future.completeExceptionally(sqlException)`
    | Uncompleted(error: Throwable)     // another exception ended the query job; the future never completes

  /** Decoding rows in order: the kept changes, or the first escaping exception. */
  function DecodeAll(reg: Registry, now: i64, rows: seq<Row>): (r: Result<seq<Change>, Throwable>)
    ensures r.Ok? ==> |r.value| <= |rows|
  {
    if |rows| == 0 then Ok([])
    else
      match DecodeRow(reg, now, rows[0])
      case Escape(e) => Err(e)
      case Skip => DecodeAll(reg, now, rows[1..])
      case Keep(c) =>
        match DecodeAll(reg, now, rows[1..])
        case Err(e) => Err(e)
        case Ok(cs) => Ok([c] + cs)
  }

  /**
   * The list is complete exactly when no row escapes, and holds only changes
   * rebuilt from returned rows.
   */
  lemma {:induction false} DecodeAllSound(reg: Registry, now: i64, rows: seq<Row>)
    ensures DecodeAll(reg, now, rows).Ok? <==> forall x :: x in rows ==> !DecodeRow(reg, now, x).Escape?
    ensures DecodeAll(reg, now, rows).Ok? ==>
      forall c :: c in DecodeAll(reg, now, rows).value ==> exists x :: x in rows && DecodeRow(reg, now, x) == Keep(c)
  {
    if |rows| > 0 {
      DecodeAllSound(reg, now, rows[1..]);
      assert forall x :: x in rows <==> x == rows[0] || x in rows[1..];
    }
  }

  /**
   * The asynchronous task of `queryChanges`, given the rows the SELECT
   * returns: an SQLException anywhere in preparing, binding or executing
   * (`sqlOk` false) completes the future exceptionally with no partial list;
   * an exception of another kind while rebuilding a row leaves it
   * uncompleted; otherwise it completes with the rebuilt changes in row order.
   */
  method QueryTask(reg: Registry, now: i64, rows: seq<Row>, sqlOk: bool) returns (o: QueryOutcome)
    ensures !sqlOk ==> o.Failed? && o.error.SQLException?
    ensures sqlOk && DecodeAll(reg, now, rows).Ok? ==> o == Completed(DecodeAll(reg, now, rows).value)
    ensures sqlOk && DecodeAll(reg, now, rows).Err? ==> o == Uncompleted(DecodeAll(reg, now, rows).error)
  {
    if !sqlOk {
      return Failed(SQLException("query"));
    }
    var changes: seq<Change> := [];
    var i := 0;
    assert rows[0..] == rows;
    assert DecodeAll(reg, now, rows).Ok? ==> [] + DecodeAll(reg, now, rows).value == DecodeAll(reg, now, rows).value;
    while i < |rows|
      invariant 0 <= i <= |rows|
      invariant DecodedSoFar(reg, now, rows, i, changes)
      decreases |rows| - i
    {
      DecodeNextRow(reg, now, rows, i, changes);
      match DecodeRow(reg, now, rows[i]) {
        case Escape(e) =>
          return Uncompleted(e);
        case Skip =>
        case Keep(c) =>
          changes := changes + [c];
      }
      i := i + 1;
    }
    assert rows[i..] == [];
    return Completed(changes);
  }

  /**
   * The loop of the query task after `i` rows: decoding all rows gives the
   * changes kept so far followed by whatever the remaining rows give.
   */
  predicate DecodedSoFar(reg: Registry, now: i64, rows: seq<Row>, i: nat, changes: seq<Change>)
    requires i <= |rows|
  {
    DecodeAll(reg, now, rows) == match DecodeAll(reg, now, rows[i..])
                                 case Err(e) => Err(e)
                                 case Ok(cs) => Ok(changes + cs)
  }

  /** One row more: an escaping row decides the result, a skipped or kept row moves the loop on. */
  lemma DecodeNextRow(reg: Registry, now: i64, rows: seq<Row>, i: nat, changes: seq<Change>)
    requires i < |rows| && DecodedSoFar(reg, now, rows, i, changes)
    ensures DecodeRow(reg, now, rows[i]).Escape? ==> DecodeAll(reg, now, rows) == Err(DecodeRow(reg, now, rows[i]).error)
    ensures DecodeRow(reg, now, rows[i]).Skip? ==> DecodedSoFar(reg, now, rows, i + 1, changes)
    ensures DecodeRow(reg, now, rows[i]).Keep? ==> DecodedSoFar(reg, now, rows, i + 1, changes + [DecodeRow(reg, now, rows[i]).change])
  {
    assert rows[i..][0] == rows[i] && rows[i..][1..] == rows[i + 1..];
    var rest := DecodeAll(reg, now, rows[i + 1..]);
    if DecodeRow(reg, now, rows[i]).Keep? {
      var c := DecodeRow(reg, now, rows[i]).change;
      assert DecodeAll(reg, now, rows[i..]) == if rest.Ok? then Ok([c] + rest.value) else rest;
      assert rest.Ok? ==> changes + ([c] + rest.value) == (changes + [c]) + rest.value;
    }
  }

  /**
   * A persisted block change, read back, is rebuilt — provided its source name
   * is registered for that source, both enum names are declared and both block
   * states parse. Because `persist` writes the new state with the guard on the
   * old tag, the change comes back unaltered exactly when its old tag is
   * non-empty or its new tag is empty; otherwise its new tag comes back empty.
   */
  lemma PersistDecodeRoundTrip(reg: Registry, now: i64, id: int, c: Change)
    requires c.subject.Some? && c.subject.value.Block? && c.subject.value.Valid()
    requires c.source.name in reg.sources && reg.sources[c.source.name] == c.source
    requires BLOCK.name in reg.types && c.reason.name in reg.reasons
    requires c.subject.value.block.from.asString in reg.blockStates
    requires c.subject.value.block.to.asString in reg.blockStates
    ensures var s := c.subject.value.block;
      DecodeRow(reg, now, PersistedRow(id, c))
        == Keep(if s.oldFull then c else c.(subject := Some(Block(s.(newState := EMPTY, newFull := false)))))
    ensures var s := c.subject.value.block;
      DecodeRow(reg, now, PersistedRow(id, c)) == Keep(c) <==> s.oldFull || !s.newFull
  {
    PersistColumnOrder(id, c);
    var s := c.subject.value;
    BlockSubjectColumnsAsWritten(reg.types, reg.blockStates, s.block);
  }
}
