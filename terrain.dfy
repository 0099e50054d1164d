/*
 * The terrain part of the game state: the generation-tagged hash table of
 * terrain chunks, terrain generation over the configured extent, the
 * height query that routes a world position through the table, and the
 * rule that grows the extent when the camera leaves it.
 */
module Terrain {
  import opened ChunkMath
  import opened ChunkTable
  import opened Octaves

  datatype Option<T> = None | Some(value: T)

  /** Chunk `c` comes before `(cx, cy)` in the order generation visits chunks: by x, then by y. */
  predicate Before(c: Coord, cx: int, cy: int)
  {
    c.x < cx || (c.x == cx && c.y < cy)
  }

  class GameState {
    /** `CHUNK_SIZE`: the edge length of a chunk, in cells. */
    const chunkSize: nat
    /** The noise function the octaves sample. */
    const perlin: NoiseFn
    /** `terrain_chunk_hashmap`: the fixed array of chunk slots. */
    const hashmap: array<TerrainChunk>
    /** `terrain_gen_id`: the current generation; a slot with another tag is stale. */
    var terrainGenId: int
    /** `current_terrain_dim`: the extent, in chunks, of the last generation. */
    var currentTerrainDim: Vec2
    /** `user_terrain_dim`: the extent the next generation will use. */
    var userTerrainDim: Vec2
    /** `n_perlins`, `perlin_periods`, `perlin_amplitudes`: the octave settings. */
    var nPerlins: int
    var perlinPeriods: seq<int>
    var perlinAmplitudes: seq<real>

    /** The octave settings as one value. */
    ghost function Octaves(): Settings
      reads this
    {
      Settings(perlin, nPerlins, perlinPeriods, perlinAmplitudes)
    }

    /**
     * The shape every state has, including the zeroed state before the
     * first generation: a positive chunk size and table length, full-size
     * height maps, octave settings within their arrays, and no slot tagged
     * with a generation that has not happened yet.
     */
    ghost predicate Wellformed()
      reads this, hashmap
    {
      && chunkSize > 0
      && hashmap.Length > 0
      && Octaves().Valid()
      && forall j :: 0 <= j < hashmap.Length ==>
           |hashmap[j].heightMap| == chunkSize * chunkSize && hashmap[j].genId <= terrainGenId
    }

    /** The table invariant on top of the shape: live coordinates are unique and found by probing. */
    ghost predicate Valid()
      reads this, hashmap
    {
      Wellformed() && Consistent(hashmap[..], terrainGenId)
    }

    /** Slot `chunk` holds, at every cell, the height generation computes for its coordinate. */
    ghost predicate ChunkGenerated(chunk: TerrainChunk)
      reads this
      requires Octaves().Valid()
    {
      Generated(Octaves(), chunk.heightMap, chunk.position, chunkSize)
    }

    /** Every live slot holds a chunk of the current extent with its generated heights. */
    ghost predicate LiveChunksGenerated()
      reads this, hashmap
      requires Wellformed()
    {
      forall j :: 0 <= j < hashmap.Length && hashmap[j].genId == terrainGenId ==>
        InExtent(hashmap[j].position, currentTerrainDim) && ChunkGenerated(hashmap[j])
    }

    /** Every live slot holds a chunk that generation visits before `(cx, cy)`. */
    ghost predicate LiveBefore(cx: int, cy: int)
      reads this, hashmap
    {
      forall j :: 0 <= j < hashmap.Length && hashmap[j].genId == terrainGenId ==>
        Before(hashmap[j].position, cx, cy)
    }

    /** Every chunk of the current extent that generation visits before `(cx, cy)` is held by a live slot. */
    ghost predicate PresentBefore(cx: int, cy: int)
      reads this, hashmap
    {
      forall c :: InExtent(c, currentTerrainDim) && Before(c, cx, cy) ==> Present(hashmap[..], terrainGenId, c)
    }

    /**
     * A zero-initialised game state after the terrain settings of its
     * initialisation: extent 5 × 5, fifteen octaves of period 16 and
     * amplitude 1, generation 0. Every slot is still tagged 0 with
     * coordinate (0, 0), so the table is not yet consistent; the first
     * `GenerateTerrain` makes it so.
     */
    constructor (capacity: nat, chunkSize: nat, octaveSlots: nat, perlin: NoiseFn)
      requires capacity > 0 && chunkSize > 0 && octaveSlots >= 15
      ensures Wellformed() && fresh(hashmap) && hashmap.Length == capacity
      ensures this.chunkSize == chunkSize && this.perlin == perlin
      ensures terrainGenId == 0 && currentTerrainDim == Vec2(0.0, 0.0) && userTerrainDim == Vec2(5.0, 5.0)
      ensures nPerlins == 15
      ensures perlinPeriods == seq(octaveSlots, _ => 16) && perlinAmplitudes == seq(octaveSlots, _ => 1.0)
      ensures forall j :: 0 <= j < capacity ==>
        hashmap[j] == TerrainChunk(Coord(0, 0), 0, seq(chunkSize * chunkSize, _ => 0.0))
    {
      this.chunkSize := chunkSize;
      this.perlin := perlin;
      hashmap := new TerrainChunk[capacity](_ => TerrainChunk(Coord(0, 0), 0, seq(chunkSize * chunkSize, _ => 0.0)));
      currentTerrainDim := Vec2(0.0, 0.0);
      userTerrainDim := Vec2(5.0, 5.0);
      nPerlins := 15;
      perlinPeriods := seq(octaveSlots, _ => 16);
      perlinAmplitudes := seq(octaveSlots, _ => 1.0);
      terrainGenId := 0;
    }

    /**
     * `get_terrain_chunk`: probe linearly from the coordinate's base slot
     * until a live slot holding the coordinate or a stale slot; claim a
     * stale slot by retagging it. `None` is the abort of the probe loop's
     * assertion, reached when every slot is live with another coordinate.
     */
    method GetTerrainChunk(position: Coord) returns (r: Option<nat>)
      requires Valid()
      modifies hashmap
      ensures Valid()
      ensures r.None? <==>
        CountLive(old(hashmap[..]), terrainGenId) == hashmap.Length && !Present(old(hashmap[..]), terrainGenId, position)
      ensures r.None? ==> hashmap[..] == old(hashmap[..])
      ensures r.Some? ==>
        && r.value < hashmap.Length
        && hashmap[r.value].position == position && hashmap[r.value].genId == terrainGenId
        && hashmap[r.value].heightMap == old(hashmap[r.value].heightMap)
        && forall j :: 0 <= j < hashmap.Length && j != r.value ==> hashmap[j] == old(hashmap[j])
      ensures Present(old(hashmap[..]), terrainGenId, position) ==>
        r == Some(LiveSlot(old(hashmap[..]), terrainGenId, position)) && hashmap[..] == old(hashmap[..])
      ensures r.Some? && !Present(old(hashmap[..]), terrainGenId, position) ==>
        && old(hashmap[r.value].genId) != terrainGenId
        && CountLive(hashmap[..], terrainGenId) == CountLive(old(hashmap[..]), terrainGenId) + 1
    {
      var n := hashmap.Length;
      var initialSlot := SlotIndex(position, n);
      var slot := initialSlot;
      ghost var steps: nat := 0;
      while hashmap[slot].genId == terrainGenId && hashmap[slot].position != position
        invariant hashmap[..] == old(hashmap[..])
        invariant steps < n && slot == Probe(initialSlot, steps, n)
        invariant forall d :: 0 <= d < steps ==>
          Live(hashmap[..], terrainGenId, Probe(initialSlot, d, n)) && hashmap[Probe(initialSlot, d, n)].position != position
        decreases n - steps
      {
        slot := slot + 1;
        if slot == n {
          slot := 0;
        }
        steps := steps + 1;
        if slot == initialSlot {
          // Back at the start: the source's assertion fails and the program aborts.
          FullProbe(hashmap[..], terrainGenId, position);
          return None;
        }
      }
      ProbeStop(hashmap[..], terrainGenId, position, steps);
      if hashmap[slot].genId != terrainGenId {
        ClaimPreservesConsistent(hashmap[..], terrainGenId, slot, position);
        CountLiveUpdate(hashmap[..], terrainGenId, slot, hashmap[slot].(position := position, genId := terrainGenId));
        CountLiveFull(hashmap[..], terrainGenId);
        hashmap[slot] := hashmap[slot].(position := position, genId := terrainGenId);
        assert hashmap[..] == old(hashmap[..])[slot := hashmap[slot]];
      }
      r := Some(slot);
    }

    /** The innermost loop of `generate_terrain`: the weighted octave sum at one world position. */
    method TerrainOffset(gx: int, gy: int) returns (terrainOffset: real)
      requires Octaves().Valid()
      ensures terrainOffset == OctaveSum(Octaves(), nPerlins, gx, gy)
    {
      terrainOffset := 0.0;
      var perlinN := 0;
      while perlinN < nPerlins
        invariant 0 <= perlinN <= nPerlins
        invariant terrainOffset == OctaveSum(Octaves(), perlinN, gx, gy)
      {
        terrainOffset := terrainOffset + perlinAmplitudes[perlinN] * perlin(gx, gy, perlinPeriods[perlinN]);
        perlinN := perlinN + 1;
      }
    }

    /** The two cell loops of `generate_terrain`: write every cell of one slot's height map. */
    method FillChunk(slot: nat, chunkPosition: Coord)
      requires Wellformed() && slot < hashmap.Length
      modifies hashmap
      ensures Wellformed()
      ensures hashmap[slot].position == old(hashmap[slot].position) && hashmap[slot].genId == old(hashmap[slot].genId)
      ensures Generated(Octaves(), hashmap[slot].heightMap, chunkPosition, chunkSize)
      ensures forall j :: 0 <= j < hashmap.Length && j != slot ==> hashmap[j] == old(hashmap[j])
    {
      var x := 0;
      while x < chunkSize
        invariant 0 <= x <= chunkSize
        invariant Wellformed()
        invariant hashmap[slot].position == old(hashmap[slot].position) && hashmap[slot].genId == old(hashmap[slot].genId)
        invariant forall j :: 0 <= j < hashmap.Length && j != slot ==> hashmap[j] == old(hashmap[j])
        invariant forall x', y' :: 0 <= x' < x && 0 <= y' < chunkSize ==>
          hashmap[slot].heightMap[CellIndex(x', y', chunkSize)] == CellHeight(Octaves(), chunkPosition, x', y', chunkSize)
      {
        var y := 0;
        while y < chunkSize
          invariant 0 <= y <= chunkSize
          invariant Wellformed()
          invariant hashmap[slot].position == old(hashmap[slot].position) && hashmap[slot].genId == old(hashmap[slot].genId)
          invariant forall j :: 0 <= j < hashmap.Length && j != slot ==> hashmap[j] == old(hashmap[j])
          invariant forall x', y' :: IsCell(x', y', chunkSize) && Before(Coord(x', y'), x, y) ==>
            hashmap[slot].heightMap[CellIndex(x', y', chunkSize)] == CellHeight(Octaves(), chunkPosition, x', y', chunkSize)
        {
          var h := TerrainOffset(chunkPosition.x * chunkSize + x, chunkPosition.y * chunkSize + y);
          var i := CellIndex(x, y, chunkSize);
          hashmap[slot] := hashmap[slot].(heightMap := hashmap[slot].heightMap[i := h]);
          y := y + 1;
        }
        x := x + 1;
      }
    }

    /**
     * One pass of the chunk loops of `generate_terrain`: fetch the slot of a
     * chunk not yet live and fill its heights. `false` is the abort inside
     * `get_terrain_chunk`.
     */
    method GenerateChunk(c: Coord) returns (ok: bool)
      requires Valid() && !Present(hashmap[..], terrainGenId, c)
      modifies hashmap
      ensures Valid()
      ensures ok <==> CountLive(old(hashmap[..]), terrainGenId) < hashmap.Length
      ensures !ok ==> hashmap[..] == old(hashmap[..])
      ensures ok ==> CountLive(hashmap[..], terrainGenId) == CountLive(old(hashmap[..]), terrainGenId) + 1
      ensures forall j :: 0 <= j < hashmap.Length ==>
        if old(hashmap[j].genId) == terrainGenId || hashmap[j].genId != terrainGenId
        then hashmap[j] == old(hashmap[j])
        else hashmap[j].position == c && ChunkGenerated(hashmap[j])
      ensures ok ==> Present(hashmap[..], terrainGenId, c)
    {
      CountLiveFull(hashmap[..], terrainGenId);
      var r := GetTerrainChunk(c);
      if r.None? {
        return false;
      }
      ghost var claimed := hashmap[..];
      FillChunk(r.value, c);
      HeightsPreserveConsistent(claimed, hashmap[..], terrainGenId);
      CountLiveUpdate(claimed, terrainGenId, r.value, hashmap[r.value]);
      assert hashmap[..] == claimed[r.value := hashmap[r.value]];
      assert hashmap[r.value].position == c && hashmap[r.value].genId == terrainGenId;
      ok := true;
    }

    /**
     * The inner chunk loop of `generate_terrain`: generate the chunks
     * `(cx, y)` for `y` from `-floor(dim.y/2)` up to `floor(dim.y/2)`.
     */
    method GenerateColumn(cx: int) returns (ok: bool)
      requires Valid() && LiveChunksGenerated()
      requires InRange(cx, currentTerrainDim.x)
      requires LiveBefore(cx, -HalfExtent(currentTerrainDim.y)) && PresentBefore(cx, -HalfExtent(currentTerrainDim.y))
      modifies hashmap
      ensures Valid() && LiveChunksGenerated()
      ensures forall j :: 0 <= j < hashmap.Length && hashmap[j].genId != terrainGenId ==> hashmap[j] == old(hashmap[j])
      ensures ok ==>
        && CountLive(hashmap[..], terrainGenId) == CountLive(old(hashmap[..]), terrainGenId) + AxisCount(currentTerrainDim.y)
        && LiveBefore(cx + 1, -HalfExtent(currentTerrainDim.y)) && PresentBefore(cx + 1, -HalfExtent(currentTerrainDim.y))
      ensures !ok ==>
        hashmap.Length == CountLive(hashmap[..], terrainGenId) < CountLive(old(hashmap[..]), terrainGenId) + AxisCount(currentTerrainDim.y)
    {
      var hy := HalfExtent(currentTerrainDim.y);
      ghost var count0 := CountLive(hashmap[..], terrainGenId);
      var cy := -hy;
      while cy < hy
        invariant (hy <= 0 && cy == -hy) || -hy <= cy <= hy
        invariant Valid() && LiveChunksGenerated()
        invariant CountLive(hashmap[..], terrainGenId) == count0 + (cy + hy)
        invariant LiveBefore(cx, cy) && PresentBefore(cx, cy)
        invariant forall j :: 0 <= j < hashmap.Length && hashmap[j].genId != terrainGenId ==> hashmap[j] == old(hashmap[j])
      {
        var c := Coord(cx, cy);
        ghost var before := hashmap[..];
        ok := GenerateChunk(c);
        if !ok {
          return;
        }
        PresentKept(before, hashmap[..], terrainGenId);
        cy := cy + 1;
      }
      ok := true;
    }

    /**
     * `generate_terrain`: advance the generation, which makes every slot
     * stale, adopt the user extent, and generate every chunk of
     * `[-floor(dim.x/2), floor(dim.x/2)) × [-floor(dim.y/2), floor(dim.y/2))`.
     * `false` is the abort of a full table.
     */
    method GenerateTerrain() returns (ok: bool)
      requires Wellformed()
      modifies this`terrainGenId, this`currentTerrainDim, hashmap
      ensures Valid() && LiveChunksGenerated()
      ensures terrainGenId == old(terrainGenId) + 1 && currentTerrainDim == userTerrainDim
      ensures ok <==> ChunkCount(currentTerrainDim) <= hashmap.Length
      ensures ok ==> forall c :: InExtent(c, currentTerrainDim) <==> Present(hashmap[..], terrainGenId, c)
      ensures forall j :: 0 <= j < hashmap.Length && hashmap[j].genId != terrainGenId ==> hashmap[j] == old(hashmap[j])
    {
      terrainGenId := terrainGenId + 1;
      currentTerrainDim := userTerrainDim;
      CountLiveEmpty(hashmap[..], terrainGenId);
      ok := GenerateExtent();
    }

    /**
     * The outer chunk loop of `generate_terrain`, starting from a table
     * with no live slot: generate the columns `x` from `-floor(dim.x/2)` up
     * to `floor(dim.x/2)`.
     */
    method GenerateExtent() returns (ok: bool)
      requires Wellformed() && CountLive(hashmap[..], terrainGenId) == 0
      modifies hashmap
      ensures Valid() && LiveChunksGenerated()
      ensures ok <==> ChunkCount(currentTerrainDim) <= hashmap.Length
      ensures ok ==> forall c :: InExtent(c, currentTerrainDim) <==> Present(hashmap[..], terrainGenId, c)
      ensures forall j :: 0 <= j < hashmap.Length && hashmap[j].genId != terrainGenId ==> hashmap[j] == old(hashmap[j])
    {
      CountLiveEmpty(hashmap[..], terrainGenId);
      var hx := HalfExtent(currentTerrainDim.x);
      var hy := HalfExtent(currentTerrainDim.y);
      ghost var nx, ny := AxisCount(currentTerrainDim.x), AxisCount(currentTerrainDim.y);
      var cx := -hx;
      while cx < hx
        invariant (hx <= 0 && cx == -hx) || -hx <= cx <= hx
        invariant Valid() && LiveChunksGenerated()
        invariant CountLive(hashmap[..], terrainGenId) == (cx + hx) * ny
        invariant LiveBefore(cx, -hy) && PresentBefore(cx, -hy)
        invariant forall j :: 0 <= j < hashmap.Length && hashmap[j].genId != terrainGenId ==> hashmap[j] == old(hashmap[j])
      {
        ok := GenerateColumn(cx);
        ProgressBound(cx + hx, nx, ny);
        if !ok {
          assert hashmap.Length < nx * ny == ChunkCount(currentTerrainDim);
          return;
        }
        cx := cx + 1;
      }
      ok := true;
      assert cx + hx == nx;
      ExtentComplete(cx);
    }

    /** Once generation has passed the last column, the live chunks are exactly the extent's chunks. */
    lemma ExtentComplete(cx: int)
      requires Wellformed() && LiveChunksGenerated()
      requires cx >= HalfExtent(currentTerrainDim.x) && PresentBefore(cx, -HalfExtent(currentTerrainDim.y))
      ensures forall c :: InExtent(c, currentTerrainDim) <==> Present(hashmap[..], terrainGenId, c)
    {
      forall c | InExtent(c, currentTerrainDim)
        ensures Present(hashmap[..], terrainGenId, c)
      {
        assert Before(c, cx, -HalfExtent(currentTerrainDim.y));
      }
      forall c | Present(hashmap[..], terrainGenId, c)
        ensures InExtent(c, currentTerrainDim)
      {
        var j := LiveSlot(hashmap[..], terrainGenId, c);
      }
    }

    /**
     * `get_terrain_height_for_global_position`: the height stored for the
     * cell under a world position, read through `GetTerrainChunk`. A chunk
     * that is not live is claimed and its slot's leftover heights are read.
     */
    method TerrainHeightAt(position: Vec2) returns (h: Option<real>)
      requires Valid()
      modifies hashmap
      ensures Valid()
      ensures forall j :: 0 <= j < hashmap.Length ==> hashmap[j].heightMap == old(hashmap[j].heightMap)
      ensures forall j :: 0 <= j < hashmap.Length && old(hashmap[j].genId) == terrainGenId ==> hashmap[j] == old(hashmap[j])
      ensures var c := ChunkPosition(position, chunkSize);
        && (h.None? <==>
              CountLive(old(hashmap[..]), terrainGenId) == hashmap.Length && !Present(old(hashmap[..]), terrainGenId, c))
        && (Present(old(hashmap[..]), terrainGenId, c) ==> hashmap[..] == old(hashmap[..]))
        && (h.Some? ==>
              && Present(hashmap[..], terrainGenId, c)
              && h.value == HeightFromChunk(hashmap[LiveSlot(hashmap[..], terrainGenId, c)].heightMap,
                                            ChunkOffset(position, c, chunkSize), chunkSize))
      ensures var c := ChunkPosition(position, chunkSize);
        !Present(old(hashmap[..]), terrainGenId, c) && h.Some? ==>
          var j := LiveSlot(hashmap[..], terrainGenId, c);
          && old(hashmap[j].genId) != terrainGenId
          && (forall i :: 0 <= i < hashmap.Length && i != j ==> hashmap[i] == old(hashmap[i]))
          && CountLive(hashmap[..], terrainGenId) == CountLive(old(hashmap[..]), terrainGenId) + 1
    {
      var chunkPosition := ChunkPosition(position, chunkSize);
      var chunkOffset := ChunkOffset(position, chunkPosition, chunkSize);
      var r := GetTerrainChunk(chunkPosition);
      if r.None? {
        return None;
      }
      LiveSlotIs(hashmap[..], terrainGenId, r.value);
      h := Some(HeightFromChunk(hashmap[r.value].heightMap, chunkOffset, chunkSize));
    }

    /**
     * The chunk-growth step of the main loop: on each axis where the
     * camera's chunk lies outside the current extent, set the user extent
     * to the current extent plus one; regenerate once if either axis did.
     */
    method ExtendTerrainForCamera(cameraX: real, cameraZ: real) returns (regenerate: bool, ok: bool)
      requires Valid()
      modifies this`userTerrainDim, this`terrainGenId, this`currentTerrainDim, hashmap
      ensures Valid()
      ensures var c := ChunkPosition(Vec2(cameraX, cameraZ), chunkSize);
              var cur := old(currentTerrainDim);
        && (regenerate <==> !InRange(c.x, cur.x) || !InRange(c.y, cur.y))
        && userTerrainDim.x == (if InRange(c.x, cur.x) then old(userTerrainDim.x) else cur.x + 1.0)
        && userTerrainDim.y == (if InRange(c.y, cur.y) then old(userTerrainDim.y) else cur.y + 1.0)
      ensures regenerate ==>
        && terrainGenId == old(terrainGenId) + 1 && currentTerrainDim == userTerrainDim
        && LiveChunksGenerated()
        && (ok <==> ChunkCount(currentTerrainDim) <= hashmap.Length)
        && (ok ==> forall c :: InExtent(c, currentTerrainDim) <==> Present(hashmap[..], terrainGenId, c))
      ensures forall j :: 0 <= j < hashmap.Length && hashmap[j].genId != terrainGenId ==> hashmap[j] == old(hashmap[j])
      ensures !regenerate ==>
        && ok && terrainGenId == old(terrainGenId) && currentTerrainDim == old(currentTerrainDim)
        && hashmap[..] == old(hashmap[..])
    {
      regenerate := false;
      var chunkPosition := ChunkPosition(Vec2(cameraX, cameraZ), chunkSize);
      if chunkPosition.x < -HalfExtent(currentTerrainDim.x) || chunkPosition.x >= HalfExtent(currentTerrainDim.x) {
        userTerrainDim := userTerrainDim.(x := currentTerrainDim.x + 1.0);
        regenerate := true;
      }
      if chunkPosition.y < -HalfExtent(currentTerrainDim.y) || chunkPosition.y >= HalfExtent(currentTerrainDim.y) {
        userTerrainDim := userTerrainDim.(y := currentTerrainDim.y + 1.0);
        regenerate := true;
      }
      ok := true;
      if regenerate {
        ok := GenerateTerrain();
      }
    }

    /**
     * Generation followed by a height query: a world position inside cell
     * `(x, y)` of a chunk of the user extent reads back the height
     * generation computed for that cell, provided the table can hold the
     * whole extent.
     */
    method HeightAfterGeneration(c: Coord, x: int, y: int, fx: real, fy: real) returns (h: Option<real>)
      requires Wellformed() && IsCell(x, y, chunkSize) && 0.0 <= fx < 1.0 && 0.0 <= fy < 1.0
      requires InExtent(c, userTerrainDim) && ChunkCount(userTerrainDim) <= hashmap.Length
      modifies this`terrainGenId, this`currentTerrainDim, hashmap
      ensures Valid()
      ensures h == Some(CellHeight(Octaves(), c, x, y, chunkSize))
    {
      var ok := GenerateTerrain();
      var p := CellPoint(c, x, y, fx, fy, chunkSize);
      GeneratedHeightQuery(hashmap[..], terrainGenId, Octaves(), chunkSize, c, x, y, fx, fy);
      h := TerrainHeightAt(p);
    }
  }

  /** Completing row `i` of `a` rows of `b` chunks adds `b` to the count and stays within `a * b`. */
  lemma ProgressBound(i: int, a: int, b: nat)
    requires 0 <= i < a
    ensures (i + 1) * b == i * b + b <= a * b
  {
    MulIntMonotone(i + 1, a, b);
  }

  /**
   * The height query round trip: after generation, a world position
   * `c * size + (x + fx, y + fy)` in a live chunk `c` falls in chunk `c`, and
   * the height read through the chunk's live slot is the height generated
   * for cell `(x, y)` of `c`.
   */
  lemma GeneratedHeightQuery(s: seq<TerrainChunk>, gen: int, o: Settings, size: nat,
                             c: Coord, x: int, y: int, fx: real, fy: real)
    requires o.Valid() && IsCell(x, y, size)
    requires forall j :: 0 <= j < |s| ==> |s[j].heightMap| == size * size
    requires forall j :: 0 <= j < |s| && s[j].genId == gen ==> Generated(o, s[j].heightMap, s[j].position, size)
    requires Present(s, gen, c)
    requires 0.0 <= fx < 1.0 && 0.0 <= fy < 1.0
    ensures var p := CellPoint(c, x, y, fx, fy, size);
      && ChunkPosition(p, size) == c
      && var off := ChunkOffset(p, c, size);
      && 0.0 <= off.x < size as real && 0.0 <= off.y < size as real
      && HeightFromChunk(s[LiveSlot(s, gen, c)].heightMap, off, size) == CellHeight(o, c, x, y, size)
  {
    var j := LiveSlot(s, gen, c);
    assert Generated(o, s[j].heightMap, c, size);
    QueryRoundTrip(s[j].heightMap, c, x, y, fx, fy, size);
  }
}
