/*
 * The terrain chunk hash table as a value: a sequence of slots and the
 * current generation. A slot is live when its generation tag equals the
 * current generation; stale slots are free to be claimed. These are the
 * facts the in-place table relies on: how linear probing walks the slots,
 * the invariant that keeps every live coordinate reachable from its base
 * slot, and the count of live slots.
 */
module ChunkTable {
  import opened ChunkMath

  /** One slot of the hash table: its chunk coordinate, its generation tag and its heights. */
  datatype TerrainChunk = TerrainChunk(position: Coord, genId: int, heightMap: seq<real>)

  /** Slot `j` belongs to generation `gen`. */
  predicate Live(s: seq<TerrainChunk>, gen: int, j: int)
    requires 0 <= j < |s|
  {
    s[j].genId == gen
  }

  /** The slot reached after `d` steps of linear probing from slot `base`, wrapping from the last slot to slot 0. */
  function Probe(base: nat, d: nat, n: nat): (k: nat)
    requires base < n && d <= n
    ensures k < n && k == (base + d) % n
    ensures d == 0 || d == n <==> k == base
  {
    if base + d < n then
      DivModUnique(base + d, n, 0, base + d);
      base + d
    else
      DivModUnique(base + d, n, 1, base + d - n);
      base + d - n
  }

  /** The number of probing steps from slot `base` to slot `j`. */
  function Dist(base: nat, j: nat, n: nat): (d: nat)
    requires base < n && j < n
    ensures d < n && Probe(base, d, n) == j
    ensures forall e :: 0 <= e < n && Probe(base, e, n) == j ==> e == d
  {
    if base <= j then j - base else j + n - base
  }

  /**
   * Every slot that probing for slot `j`'s coordinate passes before it
   * reaches `j` is live and holds another coordinate.
   */
  predicate PathClear(s: seq<TerrainChunk>, gen: int, j: int)
    requires 0 <= j < |s|
  {
    var n := |s|;
    var base := SlotIndex(s[j].position, n);
    forall d :: 0 <= d < Dist(base, j, n) ==>
      Live(s, gen, Probe(base, d, n)) && s[Probe(base, d, n)].position != s[j].position
  }

  /** The table invariant: every live slot is found by probing for its coordinate. */
  predicate Consistent(s: seq<TerrainChunk>, gen: int)
  {
    |s| > 0 && forall j :: 0 <= j < |s| && Live(s, gen, j) ==> PathClear(s, gen, j)
  }

  /** Some live slot holds `position`. */
  predicate Present(s: seq<TerrainChunk>, gen: int, position: Coord)
  {
    exists j :: 0 <= j < |s| && s[j].genId == gen && s[j].position == position
  }

  /** The live slot that holds `position`. */
  ghost function LiveSlot(s: seq<TerrainChunk>, gen: int, position: Coord): (j: nat)
    requires Present(s, gen, position)
    ensures j < |s| && s[j].genId == gen && s[j].position == position
  {
    var j :| 0 <= j < |s| && s[j].genId == gen && s[j].position == position;
    j
  }

  /** Within one generation a coordinate is held by at most one live slot. */
  lemma ConsistentUnique(s: seq<TerrainChunk>, gen: int, i: int, j: int)
    requires Consistent(s, gen)
    requires 0 <= i < |s| && 0 <= j < |s| && Live(s, gen, i) && Live(s, gen, j)
    requires s[i].position == s[j].position
    ensures i == j
  {
    var n := |s|;
    var base := SlotIndex(s[i].position, n);
    var di, dj := Dist(base, i, n), Dist(base, j, n);
    assert PathClear(s, gen, i) && PathClear(s, gen, j);
  }

  /** The live slot of a coordinate is the unique one. */
  lemma LiveSlotIs(s: seq<TerrainChunk>, gen: int, j: int)
    requires Consistent(s, gen) && 0 <= j < |s| && Live(s, gen, j)
    ensures Present(s, gen, s[j].position) && LiveSlot(s, gen, s[j].position) == j
  {
    var k := LiveSlot(s, gen, s[j].position);
    ConsistentUnique(s, gen, j, k);
  }

  /**
   * Where probing for `position` first stops, after passing `steps` live
   * slots that hold other coordinates: on a live slot, that slot is the
   * one holding `position`; on a stale slot, no live slot holds `position`.
   */
  lemma ProbeStop(s: seq<TerrainChunk>, gen: int, position: Coord, steps: nat)
    requires Consistent(s, gen) && steps < |s|
    requires var base := SlotIndex(position, |s|);
      forall d :: 0 <= d < steps ==>
        Live(s, gen, Probe(base, d, |s|)) && s[Probe(base, d, |s|)].position != position
    requires var i := Probe(SlotIndex(position, |s|), steps, |s|);
      !Live(s, gen, i) || s[i].position == position
    ensures var i := Probe(SlotIndex(position, |s|), steps, |s|);
      && (Live(s, gen, i) ==> Present(s, gen, position) && LiveSlot(s, gen, position) == i)
      && (!Live(s, gen, i) ==> !Present(s, gen, position))
  {
    var n := |s|;
    var base := SlotIndex(position, n);
    var i := Probe(base, steps, n);
    if Live(s, gen, i) {
      LiveSlotIs(s, gen, i);
    } else {
      forall j | 0 <= j < n && s[j].genId == gen
        ensures s[j].position != position
      {
        var dj := Dist(base, j, n);
        assert PathClear(s, gen, j);
      }
    }
  }

  /** The slots a claim does not touch keep the invariant; the claimed slot joins it. */
  lemma ClaimPreservesConsistent(s: seq<TerrainChunk>, gen: int, i: int, position: Coord)
    requires Consistent(s, gen) && 0 <= i < |s| && !Live(s, gen, i)
    requires var base := SlotIndex(position, |s|);
      forall d :: 0 <= d < Dist(base, i, |s|) ==>
        Live(s, gen, Probe(base, d, |s|)) && s[Probe(base, d, |s|)].position != position
    ensures Consistent(s[i := s[i].(position := position, genId := gen)], gen)
  {
    var n := |s|;
    var t := s[i := s[i].(position := position, genId := gen)];
    forall j | 0 <= j < n && Live(t, gen, j)
      ensures PathClear(t, gen, j)
    {
      if j != i {
        assert Live(s, gen, j) && PathClear(s, gen, j);
        var base := SlotIndex(s[j].position, n);
        forall d | 0 <= d < Dist(base, j, n)
          ensures Live(t, gen, Probe(base, d, n)) && t[Probe(base, d, n)].position != t[j].position
        {
          assert Live(s, gen, Probe(base, d, n));
        }
      }
    }
  }

  /** Rewriting only the heights of slots keeps the invariant. */
  lemma HeightsPreserveConsistent(s: seq<TerrainChunk>, t: seq<TerrainChunk>, gen: int)
    requires Consistent(s, gen) && |t| == |s|
    requires forall j :: 0 <= j < |s| ==> t[j].position == s[j].position && t[j].genId == s[j].genId
    ensures Consistent(t, gen)
  {
    forall j | 0 <= j < |t| && Live(t, gen, j)
      ensures PathClear(t, gen, j)
    {
      assert PathClear(s, gen, j);
    }
  }

  /** A table whose live slots all survive unchanged into another still holds every coordinate it held. */
  lemma PresentKept(s: seq<TerrainChunk>, t: seq<TerrainChunk>, gen: int)
    requires |t| == |s|
    requires forall j :: 0 <= j < |s| && s[j].genId == gen ==> t[j] == s[j]
    ensures forall c :: Present(s, gen, c) ==> Present(t, gen, c)
  {
    forall c | Present(s, gen, c)
      ensures Present(t, gen, c)
    {
      var j := LiveSlot(s, gen, c);
      assert t[j] == s[j];
    }
  }

  // ---------------------------------------------------------------------
  // Counting live slots
  // ---------------------------------------------------------------------

  /** The number of live slots. */
  function CountLive(s: seq<TerrainChunk>, gen: int): (k: nat)
    ensures k <= |s|
  {
    if |s| == 0 then 0
    else CountLive(s[..|s| - 1], gen) + (if s[|s| - 1].genId == gen then 1 else 0)
  }

  /** Every slot is live exactly when the count reaches the table length. */
  lemma {:induction false} CountLiveFull(s: seq<TerrainChunk>, gen: int)
    ensures CountLive(s, gen) == |s| <==> forall j :: 0 <= j < |s| ==> s[j].genId == gen
  {
    if |s| > 0 {
      var p := s[..|s| - 1];
      CountLiveFull(p, gen);
      assert forall j :: 0 <= j < |p| ==> p[j] == s[j];
    }
  }

  /** No slot is live exactly when the count is zero. */
  lemma {:induction false} CountLiveEmpty(s: seq<TerrainChunk>, gen: int)
    ensures CountLive(s, gen) == 0 <==> forall j :: 0 <= j < |s| ==> s[j].genId != gen
  {
    if |s| > 0 {
      var p := s[..|s| - 1];
      CountLiveEmpty(p, gen);
      assert forall j :: 0 <= j < |p| ==> p[j] == s[j];
    }
  }

  /** Replacing one slot changes the count by what that slot's liveness changed by. */
  lemma {:induction false} CountLiveUpdate(s: seq<TerrainChunk>, gen: int, i: int, c: TerrainChunk)
    requires 0 <= i < |s|
    ensures CountLive(s[i := c], gen)
         == CountLive(s, gen) - (if s[i].genId == gen then 1 else 0) + (if c.genId == gen then 1 else 0)
  {
    var t := s[i := c];
    var n := |s|;
    if i < n - 1 {
      assert t[..n - 1] == s[..n - 1][i := c];
      CountLiveUpdate(s[..n - 1], gen, i, c);
    } else {
      assert t[..n - 1] == s[..n - 1];
    }
  }

  /** Probing that visits every slot without stopping means the table is full and lacks `position`. */
  lemma FullProbe(s: seq<TerrainChunk>, gen: int, position: Coord)
    requires |s| > 0
    requires var base := SlotIndex(position, |s|);
      forall d :: 0 <= d < |s| ==>
        Live(s, gen, Probe(base, d, |s|)) && s[Probe(base, d, |s|)].position != position
    ensures CountLive(s, gen) == |s| && !Present(s, gen, position)
  {
    var n := |s|;
    var base := SlotIndex(position, n);
    forall j | 0 <= j < n
      ensures s[j].genId == gen && s[j].position != position
    {
      assert Probe(base, Dist(base, j, n), n) == j;
    }
    CountLiveFull(s, gen);
  }
}
