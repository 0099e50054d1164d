/*
 * Terrain height as a weighted sum of noise octaves. The noise function
 * itself (gradient noise over floats and a random-number generator) is
 * not modelled: it is a parameter, a total function of the integer world
 * cell and the integer period.
 */
module Octaves {
  import opened ChunkMath

  /** The noise generator: `perlin(position, period)` at an integer world position. */
  type NoiseFn = (int, int, int) -> real

  /** The octave settings of the game state: the noise, the octave count and the per-octave arrays. */
  datatype Settings = Settings(perlin: NoiseFn, count: int, periods: seq<int>, amplitudes: seq<real>)
  {
    /** The count never exceeds the arrays it indexes. */
    predicate Valid()
    {
      0 <= count <= |periods| && |periods| == |amplitudes|
    }
  }

  /**
   * `amplitudes[0] * perlin(g, periods[0]) + ... + amplitudes[n-1] * perlin(g, periods[n-1])`,
   * accumulated from octave 0 upward.
   */
  function OctaveSum(s: Settings, n: nat, gx: int, gy: int): real
    requires n <= |s.periods| && n <= |s.amplitudes|
  {
    if n == 0 then 0.0
    else OctaveSum(s, n - 1, gx, gy) + s.amplitudes[n - 1] * s.perlin(gx, gy, s.periods[n - 1])
  }

  /** The height generated for cell `(x, y)` of chunk `c`: the octave sum at world position `c * size + (x, y)`. */
  function CellHeight(s: Settings, c: Coord, x: int, y: int, size: nat): real
    requires s.Valid()
  {
    OctaveSum(s, s.count, c.x * size + x, c.y * size + y)
  }

  /** A height map holds, at every cell of a chunk, the height generated for that cell. */
  ghost predicate Generated(s: Settings, heightMap: seq<real>, c: Coord, size: nat)
    requires s.Valid()
  {
    && |heightMap| == size * size
    && forall x, y :: IsCell(x, y, size) ==> heightMap[CellIndex(x, y, size)] == CellHeight(s, c, x, y, size)
  }

  /**
   * Only the first `n` octaves count: settings that agree on the noise and
   * on the first `n` periods and amplitudes give the same sum, whatever the
   * disabled octaves hold.
   */
  lemma {:induction false} OctaveSumPrefix(s: Settings, t: Settings, n: nat, gx: int, gy: int)
    requires n <= |s.periods| && n <= |s.amplitudes| && n <= |t.periods| && n <= |t.amplitudes|
    requires s.perlin == t.perlin
    requires s.periods[..n] == t.periods[..n] && s.amplitudes[..n] == t.amplitudes[..n]
    ensures OctaveSum(s, n, gx, gy) == OctaveSum(t, n, gx, gy)
  {
    if n > 0 {
      assert s.periods[..n - 1] == s.periods[..n][..n - 1];
      assert t.periods[..n - 1] == t.periods[..n][..n - 1];
      assert s.amplitudes[..n - 1] == s.amplitudes[..n][..n - 1];
      assert t.amplitudes[..n - 1] == t.amplitudes[..n][..n - 1];
      assert s.periods[n - 1] == s.periods[..n][n - 1];
      assert t.periods[n - 1] == t.periods[..n][n - 1];
      assert s.amplitudes[n - 1] == s.amplitudes[..n][n - 1];
      assert t.amplitudes[n - 1] == t.amplitudes[..n][n - 1];
      OctaveSumPrefix(s, t, n - 1, gx, gy);
    }
  }

  /**
   * With a single octave of amplitude 1 the generated height is the raw
   * noise at the cell's world position and the octave's period.
   */
  lemma SingleOctave(s: Settings, c: Coord, x: int, y: int, size: nat)
    requires s.Valid() && s.count == 1 && s.amplitudes[0] == 1.0
    ensures CellHeight(s, c, x, y, size) == s.perlin(c.x * size + x, c.y * size + y, s.periods[0])
  {
    assert OctaveSum(s, 1, c.x * size + x, c.y * size + y)
        == OctaveSum(s, 0, c.x * size + x, c.y * size + y) + 1.0 * s.perlin(c.x * size + x, c.y * size + y, s.periods[0]);
  }
}
