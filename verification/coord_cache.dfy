/**
 * The coordinate cache of the restoration handler.
 *
 * A chunk section stores its blocks in 16 layers of 4096 slots. `CACHE_I`
 * maps a chunk-local position `(x, y, z)` (x, z in [0,16), y in [0,256)) to its
 * layer and `CACHE_J` to its slot; `x_loc`, `y_loc` and `z_loc` map a
 * `(layer, slot)` pair back to the position. The tables are filled once,
 * lazily, by `initCache`.
 */
module CoordCache {
  import opened Wrappers

  const LAYERS: nat := 16
  const SLOTS: nat := 4096

  predicate InChunk(x: int, y: int, z: int) {
    0 <= x < 16 && 0 <= y < 256 && 0 <= z < 16
  }

  predicate InLayers(i: int, j: int) {
    0 <= i < LAYERS && 0 <= j < SLOTS
  }

  // ---------------------------------------------------------------------------
  // The five cell formulas. For non-negative operands `a >> k` is `a / 2^k`,
  // `a & 0xF` is `a % 16`, `a << k` is `a * 2^k`, and the `|` in CACHE_J joins
  // disjoint bit ranges, so it is an addition.

  /** `CACHE_I[y][x][z] = y >> 4`. */
  function CacheI(x: int, y: int, z: int): (i: int)
    requires InChunk(x, y, z)
    ensures 0 <= i < LAYERS
  {
    y / 16
  }

  /** `CACHE_J[y][x][z] = (y & 0xF) << 8 | z << 4 | x`. */
  function CacheJ(x: int, y: int, z: int): (j: int)
    requires InChunk(x, y, z)
    ensures 0 <= j < SLOTS
  {
    (y % 16) * 256 + z * 16 + x
  }

  /** `y_loc[i][j]`: `y = (i << 4) + (j >> 8)`. */
  function YLoc(i: int, j: int): (y: int)
    requires InLayers(i, j)
    ensures 0 <= y < 256
  {
    i * 16 + j / 256
  }

  /** `z_loc[i][j]`: `a = j - ((y & 0xF) << 8)`, `z1 = a >> 4`. */
  function ZLoc(i: int, j: int): (z: int)
    requires InLayers(i, j)
    ensures 0 <= z < 16
  {
    var y := YLoc(i, j);
    var a := j - (y % 16) * 256;
    a / 16
  }

  /** `x_loc[i][j]`: `x1 = a - (z1 << 4)`. */
  function XLoc(i: int, j: int): (x: int)
    requires InLayers(i, j)
    ensures 0 <= x < 16
  {
    var y := YLoc(i, j);
    var a := j - (y % 16) * 256;
    a - (a / 16) * 16
  }

  /** Position to slot and back: `x_loc[CACHE_I[y][x][z]][CACHE_J[y][x][z]] == x`, and likewise for y and z. */
  lemma PositionRoundTrip(x: int, y: int, z: int)
    requires InChunk(x, y, z)
    ensures InLayers(CacheI(x, y, z), CacheJ(x, y, z))
    ensures XLoc(CacheI(x, y, z), CacheJ(x, y, z)) == x
    ensures YLoc(CacheI(x, y, z), CacheJ(x, y, z)) == y
    ensures ZLoc(CacheI(x, y, z), CacheJ(x, y, z)) == z
  {
    var i, j := CacheI(x, y, z), CacheJ(x, y, z);
    assert j / 256 == y % 16;
    assert YLoc(i, j) == y;
    assert j - (y % 16) * 256 == z * 16 + x;
  }

  /** Slot to position and back: every `(layer, slot)` is the image of exactly the position the inverse tables give. */
  lemma SlotRoundTrip(i: int, j: int)
    requires InLayers(i, j)
    ensures InChunk(XLoc(i, j), YLoc(i, j), ZLoc(i, j))
    ensures CacheI(XLoc(i, j), YLoc(i, j), ZLoc(i, j)) == i
    ensures CacheJ(XLoc(i, j), YLoc(i, j), ZLoc(i, j)) == j
  {
    var y := YLoc(i, j);
    assert y / 16 == i && y % 16 == j / 256;
    var a := j - (y % 16) * 256;
    assert a == j % 256;
  }

  /** Distinct positions in a chunk occupy distinct cells. */
  lemma CellInjective(x1: int, y1: int, z1: int, x2: int, y2: int, z2: int)
    requires InChunk(x1, y1, z1) && InChunk(x2, y2, z2)
    requires CacheI(x1, y1, z1) == CacheI(x2, y2, z2) && CacheJ(x1, y1, z1) == CacheJ(x2, y2, z2)
    ensures x1 == x2 && y1 == y2 && z1 == z2
  {
    PositionRoundTrip(x1, y1, z1);
    PositionRoundTrip(x2, y2, z2);
  }

  // ---------------------------------------------------------------------------
  // The tables themselves

  /** `x_loc`, `y_loc` or `z_loc`: indexed `[layer][slot]`. */
  type LocTable = seq<seq<int>>
  /** `CACHE_I` or `CACHE_J`: indexed `[y][x][z]`. */
  type CacheTable = seq<seq<seq<int>>>

  function BuildXLoc(): (t: LocTable)
    ensures |t| == LAYERS && forall i :: 0 <= i < LAYERS ==> |t[i]| == SLOTS
    ensures forall i, j :: InLayers(i, j) ==> t[i][j] == XLoc(i, j)
  {
    seq(LAYERS, i requires 0 <= i < LAYERS => seq(SLOTS, j requires 0 <= j < SLOTS => XLoc(i, j)))
  }

  function BuildYLoc(): (t: LocTable)
    ensures |t| == LAYERS && forall i :: 0 <= i < LAYERS ==> |t[i]| == SLOTS
    ensures forall i, j :: InLayers(i, j) ==> t[i][j] == YLoc(i, j)
  {
    seq(LAYERS, i requires 0 <= i < LAYERS => seq(SLOTS, j requires 0 <= j < SLOTS => YLoc(i, j)))
  }

  function BuildZLoc(): (t: LocTable)
    ensures |t| == LAYERS && forall i :: 0 <= i < LAYERS ==> |t[i]| == SLOTS
    ensures forall i, j :: InLayers(i, j) ==> t[i][j] == ZLoc(i, j)
  {
    seq(LAYERS, i requires 0 <= i < LAYERS => seq(SLOTS, j requires 0 <= j < SLOTS => ZLoc(i, j)))
  }

  function BuildCacheI(): (t: CacheTable)
    ensures |t| == 256 && forall y :: 0 <= y < 256 ==> |t[y]| == 16 && forall x :: 0 <= x < 16 ==> |t[y][x]| == 16
    ensures forall x, y, z :: InChunk(x, y, z) ==> t[y][x][z] == CacheI(x, y, z)
  {
    seq(256, y requires 0 <= y < 256 =>
      seq(16, x requires 0 <= x < 16 =>
        seq(16, z requires 0 <= z < 16 => CacheI(x, y, z))))
  }

  function BuildCacheJ(): (t: CacheTable)
    ensures |t| == 256 && forall y :: 0 <= y < 256 ==> |t[y]| == 16 && forall x :: 0 <= x < 16 ==> |t[y][x]| == 16
    ensures forall x, y, z :: InChunk(x, y, z) ==> t[y][x][z] == CacheJ(x, y, z)
  {
    seq(256, y requires 0 <= y < 256 =>
      seq(16, x requires 0 <= x < 16 =>
        seq(16, z requires 0 <= z < 16 => CacheJ(x, y, z))))
  }

  /** The five static table fields; `None` is a table not yet allocated. */
  datatype Tables = Tables(
    xLoc: Option<LocTable>,
    yLoc: Option<LocTable>,
    zLoc: Option<LocTable>,
    cacheI: Option<CacheTable>,
    cacheJ: Option<CacheTable>)

  const Unset: Tables := Tables(None, None, None, None, None)

  /** The tables are allocated together: the three inverse tables at once, and both forward tables at once. */
  predicate Consistent(t: Tables) {
    && t.yLoc.Some? == t.xLoc.Some? && t.zLoc.Some? == t.xLoc.Some?
    && t.cacheJ.Some? == t.cacheI.Some?
  }

  /**
   * `initCache`: the three inverse tables are built when `x_loc` is null and the
   * two forward tables when `CACHE_I` is null; a table already present is kept.
   */
  function InitCache(t: Tables): (r: Tables)
    ensures r.xLoc.Some? && r.cacheI.Some?
    ensures Consistent(t) ==> Consistent(r)
    ensures t.xLoc.Some? ==> r.xLoc == t.xLoc && r.yLoc == t.yLoc && r.zLoc == t.zLoc
    ensures t.xLoc.None? ==> r.xLoc == Some(BuildXLoc()) && r.yLoc == Some(BuildYLoc()) && r.zLoc == Some(BuildZLoc())
    ensures t.cacheI.Some? ==> r.cacheI == t.cacheI && r.cacheJ == t.cacheJ
    ensures t.cacheI.None? ==> r.cacheI == Some(BuildCacheI()) && r.cacheJ == Some(BuildCacheJ())
  {
    var withLoc :=
      if t.xLoc.None? then t.(xLoc := Some(BuildXLoc()), yLoc := Some(BuildYLoc()), zLoc := Some(BuildZLoc()))
      else t;
    if withLoc.cacheI.None? then withLoc.(cacheI := Some(BuildCacheI()), cacheJ := Some(BuildCacheJ()))
    else withLoc
  }

  /** A second `initCache` changes nothing. */
  lemma InitCacheIdempotent(t: Tables)
    ensures InitCache(InitCache(t)) == InitCache(t)
  {
  }

  /** The tables `initCache` builds from scratch hold the round trip in both directions. */
  lemma InitialTablesRoundTrip(x: int, y: int, z: int, i: int, j: int)
    requires InChunk(x, y, z) && InLayers(i, j)
    ensures var r := InitCache(Unset);
      var (xl, yl, zl, ci, cj) := (r.xLoc.value, r.yLoc.value, r.zLoc.value, r.cacheI.value, r.cacheJ.value);
      && InLayers(ci[y][x][z], cj[y][x][z])
      && xl[ci[y][x][z]][cj[y][x][z]] == x
      && yl[ci[y][x][z]][cj[y][x][z]] == y
      && zl[ci[y][x][z]][cj[y][x][z]] == z
      && InChunk(xl[i][j], yl[i][j], zl[i][j])
      && ci[yl[i][j]][xl[i][j]][zl[i][j]] == i
      && cj[yl[i][j]][xl[i][j]][zl[i][j]] == j
  {
    PositionRoundTrip(x, y, z);
    SlotRoundTrip(i, j);
  }
}
