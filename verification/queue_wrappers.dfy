/**
 * Queue wrappers: `DelegateLocalBlockQueue`, which forwards to a parent queue
 * that may be null, and `ScopedLocalBlockQueue`, which accepts writes only in
 * a box `[0, dx] × [0, dy] × [0, dz]` and shifts them by the box's minimum
 * corner before forwarding.
 *
 * Calling through a null parent where the class does not check for null
 * throws a null-pointer exception, modelled as an `Err`.
 */
module QueueWrappers {
  import opened Wrappers
  import opened JavaLang
  import opened Geometry
  import opened Blocks
  import opened LocalBlockQueue

  // ---------------------------------------------------------------------------
  // DelegateLocalBlockQueue

  datatype Delegate = Delegate(parent: Option<Queue>)

  ghost predicate ValidDelegate(d: Delegate) {
    d.parent.Some? ==> Valid(d.parent.value)
  }

  function ParentMissing(): Throwable {
    NullPointerException("parent")
  }

  /** `next`: the parent's `next`, unguarded. */
  function DelegateNext(d: Delegate, applyOk: bool): (r: Result<(Delegate, bool), Throwable>)
    requires ValidDelegate(d)
    ensures r.Err? <==> d.parent.None?
    ensures r.Ok? ==> var n := Next(d.parent.value, applyOk);
      r.value == (Delegate(Some(n.0)), n.1)
  {
    match d.parent
    case None => Err(ParentMissing())
    case Some(p) =>
      var n := Next(p, applyOk);
      Ok((Delegate(Some(n.0)), n.1))
  }

  /** `size`: the parent's size, or 0 without a parent. */
  function DelegateSize(d: Delegate): (n: nat)
    ensures d.parent.None? ==> n == 0
    ensures d.parent.Some? ==> n == LocalBlockQueue.Size(d.parent.value)
  {
    match d.parent
    case None => 0
    case Some(p) => LocalBlockQueue.Size(p)
  }

  /** `getModified`: the parent's time, or 0 without a parent. */
  function DelegateGetModified(d: Delegate): (t: i64)
    ensures d.parent.None? ==> t == 0
    ensures d.parent.Some? ==> t == d.parent.value.modified
  {
    match d.parent
    case None => 0
    case Some(p) => p.modified
  }

  /** `setModified`: forwards to the parent; without one, does nothing. */
  function DelegateSetModified(d: Delegate, modified: i64): (r: Delegate)
    ensures d.parent.None? ==> r == d
    ensures d.parent.Some? ==> r.parent == Some(d.parent.value.(modified := modified))
  {
    match d.parent
    case None => d
    case Some(p) => Delegate(Some(p.(modified := modified)))
  }

  /** Setting then reading the time through a delegate round-trips exactly when there is a parent. */
  lemma DelegateModifiedRoundTrip(d: Delegate, modified: i64)
    ensures DelegateGetModified(DelegateSetModified(d, modified)) == if d.parent.Some? then modified else 0
  {
  }

  /** `setBlock`: the parent's `setBlock`, unguarded. */
  function DelegateSetBlock(d: Delegate, x: i32, y: i32, z: i32, data: BlockWrapper): (r: Result<(Delegate, bool), Throwable>)
    requires ValidDelegate(d)
    ensures r.Err? <==> d.parent.None?
    ensures r.Ok? ==> ValidDelegate(r.value.0)
    ensures r.Ok? ==> var s := SetBlock(d.parent.value, x, y, z, data);
      r.value == (Delegate(Some(s.0)), s.1)
  {
    match d.parent
    case None => Err(ParentMissing())
    case Some(p) =>
      var s := SetBlock(p, x, y, z, data);
      Ok((Delegate(Some(s.0)), s.1))
  }

  /** `getWorld`: the parent's world, unguarded. */
  function DelegateGetWorld(d: Delegate): (r: Result<string, Throwable>)
    ensures r.Err? <==> d.parent.None?
    ensures r.Ok? ==> r.value == d.parent.value.world
  {
    match d.parent
    case None => Err(ParentMissing())
    case Some(p) => Ok(p.world)
  }

  // ---------------------------------------------------------------------------
  // ScopedLocalBlockQueue

  /**
   * A scoped queue: the delegate, the two corners as given (not normalised),
   * and the extents `max - min` computed in `int` arithmetic.
   */
  datatype Scoped = Scoped(delegate: Delegate, min: Vector, max: Vector) {
    function Dx(): i32 { Wrap32(max.x as int - min.x as int) }
    function Dy(): i32 { Wrap32(max.y as int - min.y as int) }
    function Dz(): i32 { Wrap32(max.z as int - min.z as int) }

    /** The guard of `setBlock`. */
    predicate InScope(x: i32, y: i32, z: i32) {
      0 <= x <= Dx() && 0 <= y <= Dy() && 0 <= z <= Dz()
    }
  }

  /** The constructor: the block coordinates of the two locations. */
  function NewScoped(parent: Option<Queue>, min: Location, max: Location): (s: Scoped)
    ensures s.delegate.parent == parent
    ensures s.min == min.ToVector() && s.max == max.ToVector()
  {
    Scoped(Delegate(parent), min.ToVector(), max.ToVector())
  }

  /**
   * `setBlock`: `false` and no change outside the box; inside, the parent's
   * `setBlock` at the shifted position (`int` addition).
   */
  function ScopedSetBlock(s: Scoped, x: i32, y: i32, z: i32, data: BlockWrapper): (r: Result<(Scoped, bool), Throwable>)
    requires ValidDelegate(s.delegate)
    ensures !s.InScope(x, y, z) ==> r == Ok((s, false))
    ensures s.InScope(x, y, z) ==> (r.Err? <==> s.delegate.parent.None?)
    ensures s.InScope(x, y, z) && r.Ok? ==>
      var p := SetBlock(s.delegate.parent.value,
                        Wrap32(x as int + s.min.x as int), Wrap32(y as int + s.min.y as int), Wrap32(z as int + s.min.z as int), data);
      r.value == (s.(delegate := Delegate(Some(p.0))), p.1)
    ensures r.Ok? ==> ValidDelegate(r.value.0.delegate) && r.value.0.min == s.min && r.value.0.max == s.max
  {
    if !s.InScope(x, y, z) then Ok((s, false))
    else
      var (d, ok) :- DelegateSetBlock(s.delegate, Wrap32(x as int + s.min.x as int),
                                       Wrap32(y as int + s.min.y as int), Wrap32(z as int + s.min.z as int), data);
      Ok((s.(delegate := d), ok))
  }

  /**
   * With the corners in the wrong order along some axis (and no `int`
   * overflow in `max - min`), every write is refused.
   */
  lemma InvertedCornersRefuseAll(s: Scoped, x: i32, y: i32, z: i32, data: BlockWrapper)
    requires ValidDelegate(s.delegate)
    requires (s.max.x < s.min.x && s.max.x as int - s.min.x as int >= INT_MIN)
          || (s.max.y < s.min.y && s.max.y as int - s.min.y as int >= INT_MIN)
          || (s.max.z < s.min.z && s.max.z as int - s.min.z as int >= INT_MIN)
    ensures ScopedSetBlock(s, x, y, z, data) == Ok((s, false))
  {
  }

  /**
   * An inverted box on the x axis (`max.x < min.x`) still admits writes
   * exactly when `max.x - min.x` overflows: `dx` then wraps to
   * `max.x - min.x + 2^32`, which is not negative.
   */
  lemma InvertedCornersOverflow(s: Scoped)
    requires s.max.x < s.min.x
    ensures s.Dx() >= 0 <==> s.max.x as int - s.min.x as int < INT_MIN
    ensures s.Dx() >= 0 ==> s.Dx() as int == s.max.x as int - s.min.x as int + 0x1_0000_0000
  {
    var d := s.max.x as int - s.min.x as int;
    if d < INT_MIN {
      assert s.Dx() as int == d + 0x1_0000_0000;
    }
  }

  /** With `min.x = Integer.MAX_VALUE` and `max.x = Integer.MIN_VALUE`, `dx` wraps to 1. */
  lemma InvertedCornersExample()
    ensures var s := Scoped(Delegate(None), Vector(INT_MAX, 0, 0), Vector(INT_MIN, 0, 0));
      s.Dx() == 1 && s.InScope(1, 0, 0)
  {
  }

  /**
   * An accepted write, when the shifted position does not overflow, is
   * pending in the parent at `(x + minX, y + minY, z + minZ)`, and every other
   * position of the parent reads as before.
   */
  lemma ScopedWriteLands(s: Scoped, x: i32, y: i32, z: i32, data: BlockWrapper, x': i32, y': i32, z': i32)
    requires ValidDelegate(s.delegate) && s.delegate.parent.Some? && s.InScope(x, y, z)
    requires INT_MIN <= x as int + s.min.x as int <= INT_MAX
    requires INT_MIN <= y as int + s.min.y as int <= INT_MAX
    requires INT_MIN <= z as int + s.min.z as int <= INT_MAX
    requires 0 <= y as int + s.min.y as int <= 255
    ensures ScopedSetBlock(s, x, y, z, data).Ok?
    ensures var p := ScopedSetBlock(s, x, y, z, data).value.0.delegate.parent.value;
      Valid(p) &&
      BlockAt(p, x', y', z') ==
        if x' as int == x as int + s.min.x as int && y' as int == y as int + s.min.y as int && z' as int == z as int + s.min.z as int
        then Some(data) else BlockAt(s.delegate.parent.value, x', y', z')
  {
    var wx, wy, wz := Wrap32(x as int + s.min.x as int), Wrap32(y as int + s.min.y as int), Wrap32(z as int + s.min.z as int);
    var parent := s.delegate.parent.value;
    ScopedWriteIsParentWrite(s, x, y, z, data, wx, wy, wz);
    SetBlockThenRead(parent, wx, wy, wz, data, x', y', z');
  }

  /** An in-scope write through the wrapper is the parent's write at the shifted coordinates. */
  lemma ScopedWriteIsParentWrite(s: Scoped, x: i32, y: i32, z: i32, data: BlockWrapper, wx: i32, wy: i32, wz: i32)
    requires ValidDelegate(s.delegate) && s.delegate.parent.Some? && s.InScope(x, y, z)
    requires wx == Wrap32(x as int + s.min.x as int) && wy == Wrap32(y as int + s.min.y as int) && wz == Wrap32(z as int + s.min.z as int)
    ensures ScopedSetBlock(s, x, y, z, data) ==
      Ok((s.(delegate := Delegate(Some(SetBlock(s.delegate.parent.value, wx, wy, wz, data).0))),
          SetBlock(s.delegate.parent.value, wx, wy, wz, data).1))
  {
  }

  /** `getMin`: the minimum corner, in the parent's world (null parent: exception). */
  function GetMin(s: Scoped): (r: Result<Location, Throwable>)
    ensures r.Err? <==> s.delegate.parent.None?
  {
    var world :- DelegateGetWorld(s.delegate);
    Ok(Location(world, s.min.x, s.min.y, s.min.z))
  }

  /** `getMax`: the maximum corner, in the parent's world (null parent: exception). */
  function GetMax(s: Scoped): (r: Result<Location, Throwable>)
    ensures r.Err? <==> s.delegate.parent.None?
  {
    var world :- DelegateGetWorld(s.delegate);
    Ok(Location(world, s.max.x, s.max.y, s.max.z))
  }

  /** The corners read back are the constructor's, placed in the parent's world. */
  lemma CornersRoundTrip(p: Queue, min: Location, max: Location)
    ensures GetMin(NewScoped(Some(p), min, max)) == Ok(min.(world := p.world))
    ensures GetMax(NewScoped(Some(p), min, max)) == Ok(max.(world := p.world))
  {
  }
}
