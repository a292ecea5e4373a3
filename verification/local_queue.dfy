/**
 * The per-world block queue (`BasicLocalBlockQueue`): pending block writes
 * grouped into 16×256×16 chunks, applied one chunk at a time in the order the
 * chunks were first touched.
 *
 * The chunk objects live in a map keyed by `MathUtils.pairInt(cx, cz)`; the
 * FIFO of chunks is modelled by the list of those keys, and the one-chunk
 * lookup cache by the coordinates it remembers. Concurrency is not modelled.
 */
module LocalBlockQueue {
  import opened Wrappers
  import opened JavaLang
  import opened MathUtils
  import opened CoordCache
  import opened Blocks

  // ---------------------------------------------------------------------------
  // Chunks

  /**
   * A chunk's pending writes: 16 layers of 4096 slots, a layer allocated on
   * its first write (`BasicLocalChunk`).
   */
  datatype LocalChunk = LocalChunk(x: i32, z: i32, baseblocks: seq<Option<seq<Option<BlockWrapper>>>>) {
    ghost predicate Valid() {
      && |baseblocks| == LAYERS
      && forall i :: 0 <= i < LAYERS ==> baseblocks[i].Some? ==> |baseblocks[i].value| == SLOTS
    }
  }

  /** `getLocalChunk(cx, cz)`: a fresh chunk with no layer allocated. */
  function NewChunk(cx: i32, cz: i32): (c: LocalChunk)
    ensures c.Valid() && c.x == cx && c.z == cz
    ensures forall i :: 0 <= i < LAYERS ==> c.baseblocks[i].None?
  {
    LocalChunk(cx, cz, seq(LAYERS, _ => None))
  }

  /** `longHash`: the chunk's map key, from which both coordinates can be read back. */
  function LongHash(c: LocalChunk): (k: i64)
    ensures UnpairInt(k) == (c.x as int, c.z)
  {
    UnpairPairInt(c.x, c.z);
    PairInt(c.x, c.z)
  }

  /** Java's `(short)` cast: the low 16 bits, read as a signed value. */
  function ToShort(n: i32): (s: i16)
    ensures (s as int - n as int) % 0x1_0000 == 0
    ensures SHORT_MIN <= n <= SHORT_MAX ==> s == n
  {
    (n as int - SHORT_MIN) % 0x1_0000 + SHORT_MIN
  }

  /**
   * `hashCode`: `MathUtils.pair` of the coordinates cast to `short`. The high
   * half agrees with `x` and the low half with `z`, modulo 2^16.
   */
  function HashCode(c: LocalChunk): (h: i32)
    ensures (h as int / TWO16 - c.x as int) % TWO16 == 0
    ensures (h as int - c.z as int) % TWO16 == 0
  {
    Pair(ToShort(c.x), ToShort(c.z))
  }

  /** Casting to `short` identifies exactly the values that agree modulo 2^16. */
  lemma ToShortEqual(m: i32, n: i32)
    ensures ToShort(m) == ToShort(n) <==> (m as int - n as int) % TWO16 == 0
  {
    var p, q := m as int - SHORT_MIN, n as int - SHORT_MIN;
    assert p == TWO16 * (p / TWO16) + p % TWO16;
    assert q == TWO16 * (q / TWO16) + q % TWO16;
    if (m as int - n as int) % TWO16 == 0 {
      var d := (m as int - n as int) / TWO16;
      assert p == q + TWO16 * d;
      assert p % TWO16 == q % TWO16;
    }
  }

  /**
   * Two chunks share a `hashCode` exactly when their coordinates agree modulo
   * 2^16, although their `longHash` keys differ unless the coordinates are equal.
   */
  lemma HashCodeEqual(a: LocalChunk, b: LocalChunk)
    ensures HashCode(a) == HashCode(b) <==>
      (a.x as int - b.x as int) % TWO16 == 0 && (a.z as int - b.z as int) % TWO16 == 0
    ensures LongHash(a) == LongHash(b) <==> a.x == b.x && a.z == b.z
  {
    ToShortEqual(a.x, b.x);
    ToShortEqual(a.z, b.z);
    if HashCode(a) == HashCode(b) {
      PairInjective(ToShort(a.x), ToShort(a.z), ToShort(b.x), ToShort(b.z));
    }
  }

  /**
   * Unlike the map key, `hashCode` keeps only 16 bits per coordinate: chunks
   * 65536 apart share it.
   */
  lemma HashCodeCollides()
    ensures var a, b := NewChunk(0, 0), NewChunk(65536, 0);
      HashCode(a) == HashCode(b) && LongHash(a) != LongHash(b)
  {
  }

  /** The block a chunk holds at in-chunk position `(x, y, z)`, if one was written. */
  function ChunkBlockAt(c: LocalChunk, x: int, y: int, z: int): Option<BlockWrapper>
    requires c.Valid() && InChunk(x, y, z)
  {
    match c.baseblocks[CacheI(x, y, z)]
    case None => None
    case Some(layer) => layer[CacheJ(x, y, z)]
  }

  /**
   * `setInternal`: stores the block in layer `CACHE_I[y][x][z]`, slot
   * `CACHE_J[y][x][z]`, allocating the layer first if needed.
   */
  function SetInternal(c: LocalChunk, x: int, y: int, z: int, block: BlockWrapper): (r: LocalChunk)
    requires c.Valid() && InChunk(x, y, z)
    ensures r.Valid() && r.x == c.x && r.z == c.z
  {
    var i, j := CacheI(x, y, z), CacheJ(x, y, z);
    var layer := match c.baseblocks[i] case None => seq(SLOTS, _ => None) case Some(l) => l;
    c.(baseblocks := c.baseblocks[i := Some(layer[j := Some(block)])])
  }

  /** After `setInternal` the chunk holds the block at that position, and every other position is as before. */
  lemma SetInternalThenRead(c: LocalChunk, x: int, y: int, z: int, block: BlockWrapper, x': int, y': int, z': int)
    requires c.Valid() && InChunk(x, y, z) && InChunk(x', y', z')
    ensures ChunkBlockAt(SetInternal(c, x, y, z, block), x', y', z') ==
      if x' == x && y' == y && z' == z then Some(block) else ChunkBlockAt(c, x', y', z')
  {
    if CacheI(x, y, z) == CacheI(x', y', z') && CacheJ(x, y, z) == CacheJ(x', y', z') {
      CellInjective(x, y, z, x', y', z');
    }
  }

  // ---------------------------------------------------------------------------
  // The queue

  /**
   * The queue: its world, the chunks by key, the FIFO of chunk keys, the
   * last-modified time, and the coordinates of the chunk the lookup cache
   * remembers (`Integer.MIN_VALUE` when it remembers none).
   */
  datatype Queue = Queue(
    world: string,
    blockChunks: map<i64, LocalChunk>,
    order: seq<i64>,
    modified: i64,
    lastX: i32,
    lastZ: i32)

  /**
   * What the class keeps true between calls: the FIFO and the map hold the
   * same chunks, each once, each under its own `longHash`; the cache, when
   * set, names a chunk in the map.
   */
  ghost predicate Valid(q: Queue) {
    && NoDup(q.order)
    && (forall k :: k in q.order <==> k in q.blockChunks)
    && (forall k :: k in q.blockChunks ==> q.blockChunks[k].Valid() && LongHash(q.blockChunks[k]) == k)
    && (q.lastX != INT_MIN ==> PairInt(q.lastX, q.lastZ) in q.blockChunks)
  }

  /** The constructor, at creation time `now`. */
  function NewQueue(world: string, now: i64): (q: Queue)
    ensures Valid(q) && Size(q) == 0
  {
    Queue(world, map[], [], now, INT_MIN, INT_MIN)
  }

  /** `x >> 4`: the chunk coordinate (arithmetic shift, so flooring). */
  function ChunkOf(v: i32): (c: i32)
    ensures c as int * 16 <= v as int < c as int * 16 + 16
  {
    v as int / 16
  }

  /** `x & 15`: the coordinate within the chunk. */
  function InChunkOf(v: i32): (w: int)
    ensures 0 <= w < 16 && v as int == ChunkOf(v) as int * 16 + w
  {
    v as int % 16
  }

  /** No block coordinate lies in chunk `Integer.MIN_VALUE`, so a reset cache never matches. */
  lemma ChunkOfNeverMin(v: i32)
    ensures ChunkOf(v) != INT_MIN
  {
  }

  /** The key of the chunk holding column `(x, z)`. */
  function KeyOf(x: i32, z: i32): i64 {
    PairInt(ChunkOf(x), ChunkOf(z))
  }

  /** `size`: the number of chunks waiting in the FIFO. */
  function Size(q: Queue): nat {
    |q.order|
  }

  /** The block pending at world position `(x, y, z)`, if any. */
  function BlockAt(q: Queue, x: i32, y: i32, z: i32): Option<BlockWrapper>
    requires Valid(q)
  {
    var key := KeyOf(x, z);
    if 0 <= y <= 255 && key in q.blockChunks then
      ChunkBlockAt(q.blockChunks[key], InChunkOf(x), y as int, InChunkOf(z))
    else None
  }

  /** Writes the block into the chunk stored under `key`. */
  function WriteChunk(q: Queue, key: i64, x: i32, y: i32, z: i32, data: BlockWrapper): (r: Queue)
    requires Valid(q) && key in q.blockChunks && 0 <= y <= 255
  {
    q.(blockChunks := q.blockChunks[key := SetInternal(q.blockChunks[key], InChunkOf(x), y as int, InChunkOf(z), data)])
  }

  /**
   * `setBlock`: a `y` outside 0..255 is rejected with `false` and no change.
   * Otherwise the chunk is found through the cache, then the map; a chunk not
   * yet queued is created, written, stored and appended to the FIFO. The
   * write then succeeds.
   */
  function SetBlock(q: Queue, x: i32, y: i32, z: i32, data: BlockWrapper): (r: (Queue, bool))
    requires Valid(q)
    ensures Valid(r.0)
    ensures r.1 <==> 0 <= y <= 255
    ensures !r.1 ==> r.0 == q
    ensures r.1 ==> r.0.order == if KeyOf(x, z) in q.order then q.order else q.order + [KeyOf(x, z)]
    ensures r.0.world == q.world && r.0.modified == q.modified
  {
    if y > 255 || y < 0 then (q, false)
    else
      var cx, cz := ChunkOf(x), ChunkOf(z);
      var key := PairInt(cx, cz);
      if cx != q.lastX || cz != q.lastZ then
        var q1 := q.(lastX := cx, lastZ := cz);
        if key in q.blockChunks then (WriteChunk(q1, key, x, y, z, data), true)
        else
          var chunk := SetInternal(NewChunk(cx, cz), InChunkOf(x), y as int, InChunkOf(z), data);
          NoDupSnoc(q.order, key);
          (q1.(blockChunks := q.blockChunks[key := chunk], order := q.order + [key]), true)
      else (WriteChunk(q, key, x, y, z, data), true)
  }

  lemma NoDupSnoc<T>(s: seq<T>, x: T)
    requires NoDup(s) && x !in s
    ensures NoDup(s + [x])
  {
  }

  /**
   * The cache is invisible: `setBlock` leaves the same chunks and FIFO as a
   * plain map lookup would.
   */
  function SetBlockUncached(q: Queue, x: i32, y: i32, z: i32, data: BlockWrapper): (r: Queue)
    requires Valid(q) && 0 <= y <= 255
  {
    var key := KeyOf(x, z);
    var chunk := if key in q.blockChunks then q.blockChunks[key] else NewChunk(ChunkOf(x), ChunkOf(z));
    var written := SetInternal(chunk, InChunkOf(x), y as int, InChunkOf(z), data);
    q.(blockChunks := q.blockChunks[key := written],
       order := if key in q.blockChunks then q.order else q.order + [key])
  }

  lemma CacheTransparent(q: Queue, x: i32, y: i32, z: i32, data: BlockWrapper)
    requires Valid(q) && 0 <= y <= 255
    ensures var r := SetBlock(q, x, y, z, data).0; var u := SetBlockUncached(q, x, y, z, data);
      r.blockChunks == u.blockChunks && r.order == u.order
  {
  }

  /**
   * A write is visible at its own position and nowhere else: every other
   * position reads as before.
   */
  lemma SetBlockThenRead(q: Queue, x: i32, y: i32, z: i32, data: BlockWrapper, x': i32, y': i32, z': i32)
    requires Valid(q) && 0 <= y <= 255
    ensures var r := SetBlock(q, x, y, z, data).0;
      BlockAt(r, x', y', z') == if x' == x && y' == y && z' == z then Some(data) else BlockAt(q, x', y', z')
  {
    var r := SetBlock(q, x, y, z, data).0;
    var key, key' := KeyOf(x, z), KeyOf(x', z');
    if 0 <= y' <= 255 && key' == key {
      PairIntInjective(ChunkOf(x), ChunkOf(z), ChunkOf(x'), ChunkOf(z'));
      var before := if key in q.blockChunks then q.blockChunks[key] else NewChunk(ChunkOf(x), ChunkOf(z));
      assert r.blockChunks[key] == SetInternal(before, InChunkOf(x), y as int, InChunkOf(z), data);
      SetInternalThenRead(before, InChunkOf(x), y as int, InChunkOf(z), data, InChunkOf(x'), y' as int, InChunkOf(z'));
      if key !in q.blockChunks {
        assert ChunkBlockAt(before, InChunkOf(x'), y' as int, InChunkOf(z')) == None;
      }
    }
  }

  /**
   * `next`: clears the cache; with no chunk queued returns `false`. Otherwise
   * takes the oldest chunk off the FIFO and out of the map and applies it to
   * the world; the result is whether applying succeeded (`applyOk`), and the
   * chunk is gone either way.
   */
  function Next(q: Queue, applyOk: bool): (r: (Queue, bool, Option<LocalChunk>))
    requires Valid(q)
    ensures Valid(r.0) && r.0.lastX == INT_MIN && r.0.lastZ == INT_MIN
    ensures Size(q) == 0 ==> r.0.order == [] && !r.1 && r.2.None?
    ensures Size(q) > 0 ==>
      && r.2 == Some(q.blockChunks[q.order[0]])
      && r.0.order == q.order[1..]
      && r.0.blockChunks == q.blockChunks - {q.order[0]}
      && r.1 == applyOk
    ensures r.0.world == q.world && r.0.modified == q.modified
  {
    var q1 := q.(lastX := INT_MIN, lastZ := INT_MIN);
    SizeIsChunkCount(q);
    if |q.blockChunks| == 0 then
      (q1, false, None)
    else if |q.order| == 0 then
      assert false;
      (q1, false, None)
    else
      var key := q.order[0];
      var q2 := q1.(blockChunks := q.blockChunks - {key}, order := q.order[1..]);
      assert NoDup(q2.order);
      assert forall k :: k in q2.order <==> k in q2.blockChunks by {
        assert q.order == [key] + q2.order;
        forall k ensures k in q2.order <==> k in q2.blockChunks {
          assert k in q.order <==> k == key || k in q2.order;
        }
      }
      (q2, applyOk, Some(q.blockChunks[key]))
  }

  /** The FIFO holds every queued chunk exactly once, so its length is the number of chunks in the map. */
  lemma SizeIsChunkCount(q: Queue)
    requires Valid(q)
    ensures Size(q) == |q.blockChunks|
  {
    NoDupCard(q.order);
    assert q.blockChunks.Keys == Elems(q.order);
  }

  /** The elements of a key list. */
  function Elems(s: seq<i64>): (r: set<i64>)
    ensures forall k :: k in r <==> k in s
  {
    set k | k in s
  }

  lemma {:induction false} NoDupCard(s: seq<i64>)
    requires NoDup(s)
    ensures |Elems(s)| == |s|
  {
    if |s| > 0 {
      var rest := s[1..];
      assert NoDup(rest) by {
        forall i, j | 0 <= i < j < |rest| ensures rest[i] != rest[j] {
          assert rest[i] == s[i + 1] && rest[j] == s[j + 1];
        }
      }
      NoDupCard(rest);
      assert forall k :: k in s <==> k == s[0] || k in rest;
      assert Elems(s) == Elems(rest) + {s[0]};
      assert s[0] !in Elems(rest);
    } else {
      assert Elems(s) == {};
    }
  }

  // ---------------------------------------------------------------------------
  // Many writes

  /** One `setBlock` call. */
  datatype Write = Write(x: i32, y: i32, z: i32, data: BlockWrapper)

  /** A sequence of writes, applied first to last. */
  function SetBlocks(q: Queue, ws: seq<Write>): (r: Queue)
    requires Valid(q)
    ensures Valid(r)
  {
    if |ws| == 0 then q
    else
      var w := ws[|ws| - 1];
      SetBlock(SetBlocks(q, ws[..|ws| - 1]), w.x, w.y, w.z, w.data).0
  }

  /** The chunk keys of the writes whose `y` is in range, in write order. */
  function WrittenKeys(ws: seq<Write>): seq<i64> {
    if |ws| == 0 then []
    else
      var w := ws[|ws| - 1];
      WrittenKeys(ws[..|ws| - 1]) + (if 0 <= w.y <= 255 then [KeyOf(w.x, w.z)] else [])
  }

  /** The first occurrence of every element, in order of first occurrence. */
  function Dedup(s: seq<i64>): (d: seq<i64>)
    ensures NoDup(d)
    ensures forall x :: x in d <==> x in s
  {
    if |s| == 0 then []
    else
      var d := Dedup(s[..|s| - 1]);
      var x := s[|s| - 1];
      assert forall y :: y in s <==> y in s[..|s| - 1] || y == x;
      if x in d then d else (NoDupSnoc(d, x); d + [x])
  }

  /**
   * Starting from an empty queue, chunks are queued in the order their first
   * in-range write arrived, each once.
   */
  lemma {:induction false} ChunksQueuedInFirstWriteOrder(world: string, now: i64, ws: seq<Write>)
    ensures SetBlocks(NewQueue(world, now), ws).order == Dedup(WrittenKeys(ws))
  {
    if |ws| > 0 {
      var init := ws[..|ws| - 1];
      ChunksQueuedInFirstWriteOrder(world, now, init);
      var w := ws[|ws| - 1];
      var keys := WrittenKeys(init) + (if 0 <= w.y <= 255 then [KeyOf(w.x, w.z)] else []);
      assert WrittenKeys(ws) == keys;
      if 0 <= w.y <= 255 {
        assert keys[..|keys| - 1] == WrittenKeys(init);
      } else {
        assert keys == WrittenKeys(init);
      }
    }
  }

  /**
   * Draining: after as many `next` calls as there are chunks, every chunk
   * has been handed out, oldest first, and the queue is empty.
   */
  function Drain(q: Queue): (r: (Queue, seq<LocalChunk>))
    requires Valid(q)
    ensures Valid(r.0) && Size(r.0) == 0
    ensures |r.1| == Size(q)
    ensures forall k :: 0 <= k < |r.1| ==> r.1[k] == q.blockChunks[q.order[k]]
    decreases Size(q)
  {
    if Size(q) == 0 then (q, [])
    else
      var (q1, _, c) := Next(q, true);
      var (q2, rest) := Drain(q1);
      (q2, [c.value] + rest)
  }
}
