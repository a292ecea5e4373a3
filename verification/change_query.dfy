/**
 * The query builder (`ChangeQuery`): which world and region to search, how
 * many changes to return, and whether only the oldest change per position is
 * wanted.
 *
 * The storage layer also reads a set of reasons and an optional source from
 * the query; the class shown does not declare them, so they are modelled as two
 * further fields, initially no reasons and no source, set without validation.
 */
module Query {
  import opened Wrappers
  import opened JavaLang
  import opened Geometry
  import opened ChangeModel
  import opened ChangeSet

  datatype ChangeQuery = ChangeQuery(
    region: Option<CuboidRegion>,
    world: Option<string>,
    limit: i32,
    distinct: bool,
    reasons: seq<ChangeReason>,
    source: Option<ChangeSource>)

  /** The default limit, `Short.MAX_VALUE`. */
  const DEFAULT_LIMIT: i32 := SHORT_MAX

  /** `ChangeQuery.newQuery()`: no world, no region, limit 32767, not distinct. */
  function NewQuery(): (q: ChangeQuery)
    ensures q.world.None? && q.region.None?
    ensures q.limit == 32767 && !q.distinct
    ensures q.reasons == [] && q.source.None?
  {
    ChangeQuery(None, None, DEFAULT_LIMIT, false, [], None)
  }

  /** `inWorld`: sets the world and nothing else. */
  function InWorld(q: ChangeQuery, world: string): (r: ChangeQuery)
    ensures r.world == Some(world)
    ensures r.(world := q.world) == q
  {
    q.(world := Some(world))
  }

  /** `inRegion`: sets the region and nothing else. */
  function InRegion(q: ChangeQuery, region: CuboidRegion): (r: ChangeQuery)
    ensures r.region == Some(region)
    ensures r.(region := q.region) == q
  {
    q.(region := Some(region))
  }

  /**
   * `PointRegion.at(v)`: the one-block region at `v`. The `PointRegion` class
   * is not part of this model; it is taken to be the cuboid with both corners
   * at `v`.
   */
  function PointRegion(v: Vector): (r: CuboidRegion)
    ensures forall u :: r.Contains(u) <==> u == v
  {
    RegionOf(v, v)
  }

  /** `atLocation`: the location's world and the single-block region at its position. */
  function AtLocation(q: ChangeQuery, location: Location): (r: ChangeQuery)
    ensures r.world == Some(location.world)
    ensures r.region.Some? && forall u :: r.region.value.Contains(u) <==> u == location.ToVector()
    ensures r.(world := q.world, region := q.region) == q
  {
    q.(world := Some(location.world), region := Some(PointRegion(location.ToVector())))
  }

  /** `distinctValues`: sets the flag and nothing else. */
  function DistinctValues(q: ChangeQuery): (r: ChangeQuery)
    ensures r.distinct
    ensures r.(distinct := q.distinct) == q
  {
    q.(distinct := true)
  }

  /** Asking for distinct values twice is the same as asking once. */
  lemma DistinctValuesIdempotent(q: ChangeQuery)
    ensures DistinctValues(DistinctValues(q)) == DistinctValues(q)
  {
  }

  /** Sets the reasons the storage layer filters on, and nothing else. */
  function WithReasons(q: ChangeQuery, reasons: seq<ChangeReason>): (r: ChangeQuery)
    ensures r.reasons == reasons
    ensures r.(reasons := q.reasons) == q
  {
    q.(reasons := reasons)
  }

  /** Sets the source the storage layer filters on, and nothing else. */
  function FromSource(q: ChangeQuery, source: ChangeSource): (r: ChangeQuery)
    ensures r.source == Some(source)
    ensures r.(source := q.source) == q
  {
    q.(source := Some(source))
  }

  /**
   * `withLimit`: `-1` stands for `Integer.MAX_VALUE`; any other limit that is
   * not positive throws an illegal-state exception before the field is
   * assigned, so the query keeps its previous limit.
   */
  function WithLimit(q: ChangeQuery, limit: i32): (r: Result<ChangeQuery, Throwable>)
    ensures r.Ok? <==> limit > 0 || limit == -1
    ensures r.Ok? && limit == -1 ==> r.value.limit == INT_MAX
    ensures r.Ok? && limit > 0 ==> r.value.limit == limit
    ensures r.Ok? ==> r.value.(limit := q.limit) == q
    ensures r.Err? ==> r.error.IllegalStateException?
  {
    var effective := if limit == -1 then INT_MAX else limit;
    if effective > 0 then Ok(q.(limit := effective))
    else Err(IllegalStateException("Limit has to be positive"))
  }

  /** A query built by the operations above always has a positive limit. */
  predicate Valid(q: ChangeQuery) {
    q.limit > 0
  }

  /** Every builder operation keeps the limit positive. */
  lemma BuilderKeepsLimitPositive(q: ChangeQuery, world: string, region: CuboidRegion, location: Location, limit: i32)
    requires Valid(q)
    ensures Valid(NewQuery())
    ensures Valid(InWorld(q, world)) && Valid(InRegion(q, region)) && Valid(AtLocation(q, location))
    ensures Valid(DistinctValues(q))
    ensures WithLimit(q, limit).Ok? ==> Valid(WithLimit(q, limit).value)
  {
  }

  /**
   * The checks `queryChanges` makes before asking the logger: a world, a region
   * and a positive limit must be set.
   */
  function CheckQuery(q: ChangeQuery): (r: Result<(), Throwable>)
    ensures r.Ok? <==> q.world.Some? && q.region.Some? && q.limit > 0
    ensures r.Err? && (q.world.None? || q.region.None?) ==> r.error.NullPointerException?
  {
    if q.world.None? then Err(NullPointerException("World may not be null"))
    else if q.region.None? then Err(NullPointerException("Region may not be null"))
    else if q.limit <= 0 then Err(IllegalStateException("Limit has to be positive"))
    else Ok(())
  }

  /**
   * `queryChanges`, given the list the logger completes its future with: the
   * list is wrapped in a change set carrying the query's own region and world.
   */
  function QueryChanges(q: ChangeQuery, found: seq<Change>): (r: Result<Changes, Throwable>)
    ensures r.Ok? <==> CheckQuery(q).Ok?
    ensures r.Ok? ==> r.value.world == q.world.value && r.value.region == q.region.value
    ensures r.Ok? ==> GetChanges(r.value) == found
  {
    var _ :- CheckQuery(q);
    Ok(NewChanges(q.region.value, q.world.value, found))
  }
}
