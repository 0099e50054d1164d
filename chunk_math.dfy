/*
 * Pure index arithmetic of the chunked terrain: the hash of a chunk
 * coordinate to its base slot, the chunk that contains a world position,
 * the row-major cell index inside a chunk's height map, and the half-open
 * range of chunks a terrain extent covers.
 */
module ChunkMath {

  /** An integer-valued 2D vector: a chunk coordinate or a cell inside a chunk. */
  datatype Coord = Coord(x: int, y: int)

  /** A real-valued 2D vector: a world position on the ground plane, or an extent. */
  datatype Vec2 = Vec2(x: real, y: real)

  const TWO_POW_32: int := 0x1_0000_0000
  const TWO_POW_64: int := 0x1_0000_0000_0000_0000

  /** The prime the hash is first reduced by, before the table length. */
  const HASH_PRIME: int := 3203

  // ---------------------------------------------------------------------
  // 32-bit signed integers as bit-vectors
  // ---------------------------------------------------------------------

  /** `(int)v` for a coordinate: the two's-complement bits of `v`, wrapping modulo 2^32. */
  function ToBits(v: int): bv32
  {
    (v % TWO_POW_32) as bv32
  }

  /** The value of a 32-bit two's-complement word as a signed `int`. */
  function Signed(b: bv32): int
  {
    if b < 0x8000_0000 then b as int else b as int - TWO_POW_32
  }

  /** `>>` on a signed `int`: an arithmetic shift, which copies the sign bit. */
  function ShiftRightSigned(b: bv32, k: nat): bv32
    requires k < 32
  {
    if b & 0x8000_0000 == 0 then b >> k else !((!b) >> k)
  }

  /**
   * The signed 32-bit hash of a chunk coordinate: starting from 0, two
   * shift-xor rounds `hash = ((hash << l) ^ (hash >> r)) ^ v`, the first
   * with the x component, the second with the y component.
   */
  function ChunkHash(position: Coord): int
  {
    var hash: bv32 := 0;
    var hash := ((hash << 5) ^ ShiftRightSigned(hash, 29)) ^ ToBits(position.x);
    var hash := ((hash << 7) ^ ShiftRightSigned(hash, 31)) ^ ToBits(position.y);
    Signed(hash)
  }

  /**
   * The hash on small coordinates: x enters the first round and is then
   * shifted left by 7, y enters the second round unshifted, so `(1, 0)`,
   * `(0, 1)` and `(1, 1)` hash to 128, 1 and 129.
   */
  lemma ChunkHashSmall()
    ensures ChunkHash(Coord(0, 0)) == 0
    ensures ChunkHash(Coord(1, 0)) == 128
    ensures ChunkHash(Coord(0, 1)) == 1
    ensures ChunkHash(Coord(1, 1)) == 129
  {
    assert ToBits(0) == 0 && ToBits(1) == 1;
    assert Signed(0) == 0 && Signed(1) == 1 && Signed(128) == 128 && Signed(129) == 129;
  }

  /** The hash of every coordinate is a signed 32-bit value. */
  lemma ChunkHashRange(position: Coord)
    ensures -0x8000_0000 <= ChunkHash(position) < 0x8000_0000
  {
  }

  /**
   * The base slots of `(0, 0)` and `(1, 0)`: a hash below 3203 passes the
   * first reduction unchanged and is reduced by the table length alone.
   */
  lemma SlotIndexExamples(capacity: nat)
    requires capacity > 0
    ensures SlotIndex(Coord(0, 0), capacity) == 0
    ensures SlotIndex(Coord(1, 0), capacity) == 128 % capacity
  {
    ChunkHashSmall();
    assert TruncatedRem(0, HASH_PRIME) == 0 && TruncatedRem(128, HASH_PRIME) == 128;
    assert ToSize(0) == 0 && ToSize(128) == 128;
  }

  /** C's `%` on `int`: truncates toward zero, so the remainder has the sign of `a`. */
  function TruncatedRem(a: int, m: int): (r: int)
    requires m > 0
    ensures (a - r) % m == 0
    ensures -m < r < m
    ensures a >= 0 ==> r >= 0
    ensures a < 0 ==> r <= 0
  {
    var b := if a >= 0 then a else -a;
    var q := b / m;
    var r := if a >= 0 then b % m else -(b % m);
    DivModUnique((if a >= 0 then q else -q) * m, m, if a >= 0 then q else -q, 0);
    r
  }

  /** The implicit conversion of an `int` to the 64-bit `size_t` of `ARRAY_COUNT`. */
  function ToSize(a: int): (r: int)
    requires -TWO_POW_64 < a < TWO_POW_64
    ensures 0 <= r < TWO_POW_64
    ensures r % TWO_POW_64 == a % TWO_POW_64
  {
    if a >= 0 then a else a + TWO_POW_64
  }

  /**
   * The base slot of a chunk coordinate in a table of `capacity` slots:
   * the hash reduced by 3203 (possibly negative), converted to unsigned,
   * and reduced by the table length.
   */
  function SlotIndex(position: Coord, capacity: nat): (slot: nat)
    requires capacity > 0
    ensures slot < capacity
  {
    ToSize(TruncatedRem(ChunkHash(position), HASH_PRIME)) % capacity
  }

  // ---------------------------------------------------------------------
  // World position -> chunk -> cell
  // ---------------------------------------------------------------------

  /** `floorf(v / size)`: the chunk index along one axis, as the chunk containing `v`. */
  function ChunkIndex(v: real, size: nat): (k: int)
    requires size > 0
    ensures k as real * size as real <= v < (k + 1) as real * size as real
  {
    var q := v / size as real;
    ScaleBounds(q.Floor as real, q, size as real, v);
    q.Floor
  }

  /** Scaling `k <= q < k + 1` by `s > 0` with `q * s == v`. */
  lemma ScaleBounds(k: real, q: real, s: real, v: real)
    requires s > 0.0 && q * s == v && k <= q < k + 1.0
    ensures k * s <= v < (k + 1.0) * s
  {
    MulRealMonotone(k, q, s);
    var k1 := k + 1.0;
    MulRealMonotone(q, k1, s);
    calc {
      v;
    ==
      q * s;
    <
      k1 * s;
    ==
      (k + 1.0) * s;
    }
  }

  lemma MulRealMonotone(a: real, b: real, c: real)
    requires c > 0.0
    ensures a <= b ==> a * c <= b * c
    ensures a < b ==> a * c < b * c
  {
  }

  /** The chunk index is the only `k` whose chunk contains `v`. */
  lemma ChunkIndexUnique(v: real, size: nat, k: int)
    requires size > 0
    requires k as real * size as real <= v < (k + 1) as real * size as real
    ensures ChunkIndex(v, size) == k
  {
    var c := ChunkIndex(v, size);
    var s := size as real;
    var c1, k1 := (c + 1) as real, (k + 1) as real;
    // Each chunk starts below the end of the other, so neither index lies past the other's end.
    var lowC, highC := c as real * s, c1 * s;
    var lowK, highK := k as real * s, k1 * s;
    assert lowC <= v < highC && lowK <= v < highK;
    assert lowK < highC && lowC < highK;
    MulRealCancel(k as real, c1, s);
    MulRealCancel(c as real, k1, s);
  }

  lemma MulRealCancel(a: real, b: real, c: real)
    requires c > 0.0 && a * c < b * c
    ensures a < b
  {
    MulRealMonotone(b, a, c);
  }

  lemma MulIntMonotone(a: int, b: int, c: nat)
    requires a <= b
    ensures a * c <= b * c
  {
  }

  /** `get_chunk_position`: the chunk coordinate that contains a world position. */
  function ChunkPosition(position: Vec2, size: nat): (c: Coord)
    requires size > 0
    ensures c.x as real * size as real <= position.x < (c.x + 1) as real * size as real
    ensures c.y as real * size as real <= position.y < (c.y + 1) as real * size as real
  {
    Coord(ChunkIndex(position.x, size), ChunkIndex(position.y, size))
  }

  /** The position minus the chunk's origin, as `get_terrain_height_for_global_position` computes it. */
  function ChunkOffset(position: Vec2, chunk: Coord, size: nat): (off: Vec2)
    ensures size > 0 && chunk == ChunkPosition(position, size) ==>
      0.0 <= off.x < size as real && 0.0 <= off.y < size as real
  {
    Vec2(position.x - chunk.x as real * size as real, position.y - chunk.y as real * size as real)
  }

  /** C's `int(r)`: truncation toward zero. */
  function Truncate(r: real): (t: int)
    ensures r >= 0.0 ==> t as real <= r < t as real + 1.0
    ensures r < 0.0 ==> t as real - 1.0 < r <= t as real
  {
    if r >= 0.0 then r.Floor else -((-r).Floor)
  }

  /** Whether a cell lies inside a chunk of `size` × `size` cells. */
  predicate IsCell(x: int, y: int, size: nat)
  {
    0 <= x < size && 0 <= y < size
  }

  /** The row-major index `y * size + x` of cell `(x, y)` in a chunk's height map. */
  function CellIndex(x: int, y: int, size: nat): (i: int)
    requires IsCell(x, y, size)
    ensures 0 <= i < size * size
    ensures i / size == y && i % size == x
  {
    MulIntMonotone(y + 1, size, size);
    DivModUnique(y * size + x, size, y, x);
    y * size + x
  }

  /** `q` and `r` with `a == q * m + r` and `0 <= r < m` are Dafny's `a / m` and `a % m`. */
  lemma DivModUnique(a: int, m: nat, q: int, r: int)
    requires m > 0 && 0 <= r < m && a == q * m + r
    ensures a / m == q && a % m == r
  {
    var q', r' := a / m, a % m;
    assert (q - q') * m == r' - r;
    SmallMultiple(q - q', m);
  }

  lemma SmallMultiple(k: int, m: int)
    requires m > 0 && -m < k * m < m
    ensures k == 0
  {
    if k >= 1 {
      MulIntMonotone(1, k, m);
    } else if k <= -1 {
      MulIntMonotone(k, -1, m);
    }
  }

  /** Distinct cells of a chunk have distinct height-map indices. */
  lemma CellIndexInjective(x1: int, y1: int, x2: int, y2: int, size: nat)
    requires IsCell(x1, y1, size) && IsCell(x2, y2, size)
    requires CellIndex(x1, y1, size) == CellIndex(x2, y2, size)
    ensures x1 == x2 && y1 == y2
  {
  }

  /** Every index of a height map belongs to exactly the cell `(i % size, i / size)`. */
  lemma CellOfIndex(i: int, size: nat)
    requires size > 0 && 0 <= i < size * size
    ensures IsCell(i % size, i / size, size)
    ensures CellIndex(i % size, i / size, size) == i
  {
    if i / size >= size {
      MulIntMonotone(size, i / size, size);
    }
  }

  /** `get_height_from_chunk`: the height stored for the cell under a within-chunk offset. */
  function HeightFromChunk(heightMap: seq<real>, offset: Vec2, size: nat): (h: real)
    requires |heightMap| == size * size
    requires 0.0 <= offset.x < size as real && 0.0 <= offset.y < size as real
    ensures forall x, y :: IsCell(x, y, size) && x as real <= offset.x < (x + 1) as real && y as real <= offset.y < (y + 1) as real
              ==> h == heightMap[CellIndex(x, y, size)]
  {
    heightMap[CellIndex(Truncate(offset.x), Truncate(offset.y), size)]
  }

  /**
   * A world position `chunk * size + (x, y) + (fx, fy)` with `(x, y)` a cell
   * and `fx, fy` in `[0, 1)` falls in `chunk`, and the height query reads the
   * height map at cell `(x, y)`.
   */
  lemma QueryRoundTrip(heightMap: seq<real>, chunk: Coord, x: int, y: int, fx: real, fy: real, size: nat)
    requires IsCell(x, y, size) && |heightMap| == size * size
    requires 0.0 <= fx < 1.0 && 0.0 <= fy < 1.0
    ensures var p := CellPoint(chunk, x, y, fx, fy, size);
            && ChunkPosition(p, size) == chunk
            && var off := ChunkOffset(p, chunk, size);
            && 0.0 <= off.x < size as real && 0.0 <= off.y < size as real
            && HeightFromChunk(heightMap, off, size) == heightMap[CellIndex(x, y, size)]
  {
    var p := CellPoint(chunk, x, y, fx, fy, size);
    AxisRoundTrip(chunk.x, x, fx, size, p.x);
    AxisRoundTrip(chunk.y, y, fy, size, p.y);
    assert ChunkPosition(p, size) == chunk;
    var off := ChunkOffset(p, chunk, size);
    assert off.x == x as real + fx && off.y == y as real + fy;
    assert Truncate(off.x) == x && Truncate(off.y) == y;
    assert HeightFromChunk(heightMap, off, size) == heightMap[CellIndex(x, y, size)];
  }

  /** The world position `chunk * size + (x + fx, y + fy)`. */
  function CellPoint(chunk: Coord, x: int, y: int, fx: real, fy: real, size: nat): Vec2
  {
    Vec2(chunk.x as real * size as real + x as real + fx, chunk.y as real * size as real + y as real + fy)
  }

  lemma AxisRoundTrip(c: int, x: int, f: real, size: nat, v: real)
    requires 0 <= x < size && 0.0 <= f < 1.0
    requires v == c as real * size as real + x as real + f
    ensures ChunkIndex(v, size) == c
  {
    assert (c + 1) as real * size as real == c as real * size as real + size as real;
    ChunkIndexUnique(v, size, c);
  }

  // ---------------------------------------------------------------------
  // Terrain extent
  // ---------------------------------------------------------------------

  /** `floorf(dim * 0.5)`: the generated chunk indices along an axis are `[-h, h)`. */
  function HalfExtent(dim: real): int
  {
    (dim * 0.5).Floor
  }

  /** Whether chunk index `k` lies inside the range an extent `dim` generates. */
  predicate InRange(k: int, dim: real)
  {
    -HalfExtent(dim) <= k < HalfExtent(dim)
  }

  /** Whether a chunk coordinate lies inside the generated extent on both axes. */
  predicate InExtent(c: Coord, dim: Vec2)
  {
    InRange(c.x, dim.x) && InRange(c.y, dim.y)
  }

  /** The number of chunk indices generated along one axis. */
  function AxisCount(dim: real): (n: nat)
    ensures n % 2 == 0
    ensures n == 0 <==> HalfExtent(dim) <= 0
    ensures forall k :: InRange(k, dim) <==> -(n / 2) <= k < n / 2
  {
    if HalfExtent(dim) > 0 then 2 * HalfExtent(dim) else 0
  }

  /** The number of chunks an extent generates. */
  function ChunkCount(dim: Vec2): nat
  {
    AxisCount(dim.x) * AxisCount(dim.y)
  }

  /** An integral dimension `d >= 0` yields `d` chunk indices when even and only `d - 1` when odd. */
  lemma AxisCountIntegral(d: int)
    requires d >= 0
    ensures AxisCount(d as real) == if d % 2 == 0 then d else d - 1
  {
    assert HalfExtent(d as real) == d / 2 by {
      var h := d / 2;
      assert d == 2 * h + d % 2;
      assert (d as real) * 0.5 == h as real + (d % 2) as real * 0.5;
    }
  }

  /** Growing an extent by one never drops a chunk index from the generated range. */
  lemma GrowthKeepsRange(k: int, dim: real)
    requires InRange(k, dim)
    ensures InRange(k, dim + 1.0)
  {
    assert HalfExtent(dim) <= HalfExtent(dim + 1.0);
  }

  /**
   * A chunk index one step outside the range of an integral dimension `d`
   * is inside the range of `d + 1` exactly when `d` is odd: growing an even
   * dimension by one adds no chunk.
   */
  lemma GrowthReachesNeighbour(d: int, k: int)
    requires d >= 0
    requires k == HalfExtent(d as real) || k == -HalfExtent(d as real) - 1
    ensures InRange(k, (d + 1) as real) <==> d % 2 == 1
  {
    AxisCountIntegral(d);
    AxisCountIntegral(d + 1);
    assert HalfExtent(d as real) == d / 2 by {
      assert d == 2 * (d / 2) + d % 2;
      assert (d as real) * 0.5 == (d / 2) as real + (d % 2) as real * 0.5;
    }
    assert HalfExtent((d + 1) as real) == (d + 1) / 2 by {
      assert d + 1 == 2 * ((d + 1) / 2) + (d + 1) % 2;
      assert ((d + 1) as real) * 0.5 == ((d + 1) / 2) as real + ((d + 1) % 2) as real * 0.5;
    }
  }
}
