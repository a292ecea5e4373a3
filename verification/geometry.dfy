/**
 * Block positions, locations and cuboid regions (`CuboidRegion`).
 *
 * Bukkit vectors and locations carry `double` coordinates; everything the
 * plugin stores or compares goes through `getBlockX/Y/Z`, so positions are
 * modelled by their integer block coordinates.
 */
module Geometry {
  import opened JavaLang

  /** A block position (`org.bukkit.util.Vector` read through `getBlockX/Y/Z`). */
  datatype Vector = Vector(x: i32, y: i32, z: i32)

  /** A location: a world, known by its name, and a block position in it. */
  datatype Location = Location(world: string, x: i32, y: i32, z: i32) {
    /** `Location.toVector()`: the position without the world. */
    function ToVector(): Vector {
      Vector(x, y, z)
    }
  }


  /** A cuboid given by its least and its most positive corner. */
  datatype CuboidRegion = CuboidRegion(minimumPoint: Vector, maximumPoint: Vector) {
    /** The corners are ordered in every component. */
    predicate Normalised() {
      && minimumPoint.x <= maximumPoint.x
      && minimumPoint.y <= maximumPoint.y
      && minimumPoint.z <= maximumPoint.z
    }

    /** The block `v` lies inside the region, bounds included. */
    predicate Contains(v: Vector) {
      && minimumPoint.x <= v.x <= maximumPoint.x
      && minimumPoint.y <= v.y <= maximumPoint.y
      && minimumPoint.z <= v.z <= maximumPoint.z
    }
  }

  /**
   * `new CuboidRegion(point1, point2)` and `CuboidRegion.of(point1, point2)`:
   * the corners are the component-wise minimum and maximum of the two points.
   */
  function RegionOf(point1: Vector, point2: Vector): (r: CuboidRegion)
    ensures r.Normalised()
    ensures r.Contains(point1) && r.Contains(point2)
    ensures forall v: Vector :: r.Contains(v) <==>
      && (point1.x <= v.x <= point2.x || point2.x <= v.x <= point1.x)
      && (point1.y <= v.y <= point2.y || point2.y <= v.y <= point1.y)
      && (point1.z <= v.z <= point2.z || point2.z <= v.z <= point1.z)
  {
    CuboidRegion(
      Vector(Min(point1.x, point2.x) as i32, Min(point1.y, point2.y) as i32, Min(point1.z, point2.z) as i32),
      Vector(Max(point1.x, point2.x) as i32, Max(point1.y, point2.y) as i32, Max(point1.z, point2.z) as i32))
  }

  /** The order of the two corners given to the constructor does not matter. */
  lemma RegionOfSymmetric(point1: Vector, point2: Vector)
    ensures RegionOf(point1, point2) == RegionOf(point2, point1)
  {
  }

  /** A normalised region is rebuilt unchanged from its own corners. */
  lemma RegionOfCorners(r: CuboidRegion)
    requires r.Normalised()
    ensures RegionOf(r.minimumPoint, r.maximumPoint) == r
  {
  }

  /** `getWidth`: `max.x - min.x + 1` in `int` arithmetic. */
  function Width(r: CuboidRegion): (w: i32)
    requires r.Normalised()
    ensures r.maximumPoint.x as int - r.minimumPoint.x as int + 1 <= INT_MAX ==>
      w >= 1 && w as int == r.maximumPoint.x as int - r.minimumPoint.x as int + 1
  {
    Wrap32(r.maximumPoint.x as int - r.minimumPoint.x as int + 1)
  }

  /** `getHeight`: `max.y - min.y + 1` in `int` arithmetic. */
  function Height(r: CuboidRegion): (h: i32)
    requires r.Normalised()
    ensures r.maximumPoint.y as int - r.minimumPoint.y as int + 1 <= INT_MAX ==>
      h >= 1 && h as int == r.maximumPoint.y as int - r.minimumPoint.y as int + 1
  {
    Wrap32(r.maximumPoint.y as int - r.minimumPoint.y as int + 1)
  }

  /** `getDepth`: `max.z - min.z + 1` in `int` arithmetic. */
  function Depth(r: CuboidRegion): (d: i32)
    requires r.Normalised()
    ensures r.maximumPoint.z as int - r.minimumPoint.z as int + 1 <= INT_MAX ==>
      d >= 1 && d as int == r.maximumPoint.z as int - r.minimumPoint.z as int + 1
  {
    Wrap32(r.maximumPoint.z as int - r.minimumPoint.z as int + 1)
  }

  /** The extent of a region along all three axes fits in an `int`. */
  predicate ExtentsFit(r: CuboidRegion) {
    && r.maximumPoint.x as int - r.minimumPoint.x as int + 1 <= INT_MAX
    && r.maximumPoint.y as int - r.minimumPoint.y as int + 1 <= INT_MAX
    && r.maximumPoint.z as int - r.minimumPoint.z as int + 1 <= INT_MAX
  }

  /** `getSize`: the `long` product of width, height and depth. */
  function Size(r: CuboidRegion): (n: i64)
    requires r.Normalised()
    ensures ExtentsFit(r) && Width(r) as int * Height(r) as int * Depth(r) as int <= LONG_MAX ==>
      n as int == Width(r) as int * Height(r) as int * Depth(r) as int && n >= 1
  {
    Product64(Width(r) as int, Height(r) as int, Depth(r) as int)
  }

  /** `(long) w * (long) h * (long) d`, each multiplication wrapping around in `long`. */
  function Product64(w: int, h: int, d: int): (n: i64)
    ensures 1 <= w && 1 <= h && 1 <= d && w * h * d <= LONG_MAX ==> n as int == w * h * d && n >= 1
  {
    var wh := Wrap64(w * h);
    if 1 <= w && 1 <= h && 1 <= d && w * h * d <= LONG_MAX then
      PositiveProduct(w, h);
      PositiveProduct(w * h, d);
      assert wh as int == w * h;
      Wrap64(wh as int * d)
    else
      Wrap64(wh as int * d)
  }

  lemma PositiveProduct(a: int, b: int)
    requires a >= 1 && b >= 1
    ensures a <= a * b && 1 <= a * b
  {
    assert a * b == a + a * (b - 1);
  }

  /** A region spanning the whole `int` range along x has width 2^32, which wraps to 0. */
  lemma WidthWrapsOnFullRange()
    ensures var r := RegionOf(Vector(INT_MIN, 0, 0), Vector(INT_MAX, 0, 0));
      Width(r) == 0
  {
  }
}
