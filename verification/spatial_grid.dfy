/**
 * The broad phase of `MovementCollisionSystem`: a hash grid, rebuilt from
 * scratch at the start of every tick (`begin`), mapping each cell key to the
 * collidable ids whose box covers that cell, and the de-duplicated candidate
 * list a probing box reads from it (the nested loops of `process`).
 */
module SpatialGrid {
  import opened Components
  import opened CellKey

  /** The game's cell size: the brick size, 4 world units, cast to `int`. */
  const GRID_CELL_SIZE: int := 4

  /** `(int)` applied to a whole-valued double: Java saturates at the `int` range. */
  function SaturateInt32(x: int): (r: int)
    ensures IsInt32(r)
    ensures IsInt32(x) ==> r == x
    ensures x < -TWO31 ==> r == -TWO31
    ensures x >= TWO31 ==> r == TWO31 - 1
  {
    if x < -TWO31 then -TWO31 else if x >= TWO31 then TWO31 - 1 else x
  }

  /** `(int) Math.floor(v / cellSize)`: the cell holding coordinate `v`. */
  function CellCoord(v: real, cellSize: int): (c: int)
    requires cellSize > 0
    ensures IsInt32(c)
    ensures IsInt32((v / cellSize as real).Floor) ==>
              c as real * cellSize as real <= v < (c + 1) as real * cellSize as real
  {
    var q := v / cellSize as real;
    var c := SaturateInt32(q.Floor);
    assert IsInt32(q.Floor) ==> c as real * cellSize as real <= v < (c + 1) as real * cellSize as real by {
      if IsInt32(q.Floor) {
        FloorBounds(q, cellSize as real);
        assert q * cellSize as real == v;
        assert c == q.Floor;
        assert q * cellSize as real < (q.Floor + 1) as real * cellSize as real;
        assert q * cellSize as real < (c + 1) as real * cellSize as real;
      }
    }
    c
  }

  lemma FloorBounds(q: real, g: real)
    requires g > 0.0
    ensures q.Floor as real * g <= q * g < (q.Floor + 1) as real * g
  {
    var f := q.Floor as real;
    assert q - f >= 0.0 && (f + 1.0) - q > 0.0;
    assert (q - f) * g >= 0.0;
    assert ((f + 1.0) - q) * g > 0.0;
  }

  lemma CellCoordMonotone(a: real, b: real, cellSize: int)
    requires cellSize > 0
    requires a <= b
    ensures CellCoord(a, cellSize) <= CellCoord(b, cellSize)
  {
    var g := cellSize as real;
    assert a / g <= b / g by {
      assert a / g * g == a && b / g * g == b;
    }
  }

  /** An inclusive rectangle of cells, with Java `int` corners. */
  datatype CellRange = CellRange(minX: int, maxX: int, minY: int, maxY: int)

  predicate ValidRange(r: CellRange) {
    IsInt32(r.minX) && IsInt32(r.maxX) && IsInt32(r.minY) && IsInt32(r.maxY)
  }

  predicate InRange(r: CellRange, cx: int, cy: int) {
    r.minX <= cx <= r.maxX && r.minY <= cy <= r.maxY
  }

  /** The cells covered by a box: from the cell of its lower-left corner to that of its upper-right one. */
  function CellsOf(b: Box, cellSize: int): (r: CellRange)
    requires cellSize > 0
    ensures ValidRange(r)
    ensures WellFormed(b) ==> r.minX <= r.maxX && r.minY <= r.maxY
  {
    assert WellFormed(b) ==>
             CellCoord(b.left, cellSize) <= CellCoord(b.right, cellSize) &&
             CellCoord(b.bottom, cellSize) <= CellCoord(b.top, cellSize) by {
      if WellFormed(b) {
        CellCoordMonotone(b.left, b.right, cellSize);
        CellCoordMonotone(b.bottom, b.top, cellSize);
      }
    }
    CellRange(CellCoord(b.left, cellSize), CellCoord(b.right, cellSize),
              CellCoord(b.bottom, cellSize), CellCoord(b.top, cellSize))
  }

  /** A point of a box lies in a cell of the box's range. */
  lemma PointInCellsOf(b: Box, cellSize: int, x: real, y: real)
    requires cellSize > 0
    requires b.left <= x <= b.right && b.bottom <= y <= b.top
    ensures InRange(CellsOf(b, cellSize), CellCoord(x, cellSize), CellCoord(y, cellSize))
  {
    CellCoordMonotone(b.left, x, cellSize);
    CellCoordMonotone(x, b.right, cellSize);
    CellCoordMonotone(b.bottom, y, cellSize);
    CellCoordMonotone(y, b.top, cellSize);
  }

  /**
   * With the game's cell size, the spawned paddle (12.1 x 2.42, its left edge
   * at 120 / 2 - 12.1 / 2 = 53.95 and its bottom at 10) covers cell columns
   * 13 to 16 and rows 2 to 3.
   */
  lemma PaddleFootprint()
    ensures CellsOf(BoxOf(PADDLE_SPAWN, PADDLE_SIZE), GRID_CELL_SIZE) == CellRange(13, 16, 2, 3)
  {
    assert PADDLE_SPAWN == Vec2(53.95, 10.0);
    assert 53.95 + 12.1 == 66.05 && 10.0 + 2.42 == 12.42;
    assert (53.95 / 4.0).Floor == 13 && (66.05 / 4.0).Floor == 16;
    assert (10.0 / 4.0).Floor == 2 && (12.42 / 4.0).Floor == 3;
  }

  /** The grid: a Java `long` key per cell, each bucket in insertion order. */
  type Grid = map<int, seq<EntityId>>

  /** A missing bucket reads as an empty one. */
  function Bucket(grid: Grid, key: int): seq<EntityId> {
    if key in grid then grid[key] else []
  }

  function RangeKeys(r: CellRange): set<int>
    requires ValidRange(r)
  {
    set cx, cy | r.minX <= cx <= r.maxX && r.minY <= cy <= r.maxY :: PackCell(cx, cy)
  }

  lemma RangeKeysMembership(r: CellRange, cx: int, cy: int)
    requires ValidRange(r) && IsInt32(cx) && IsInt32(cy)
    ensures PackCell(cx, cy) in RangeKeys(r) <==> InRange(r, cx, cy)
  {
    if PackCell(cx, cy) in RangeKeys(r) {
      var a, b :| r.minX <= a <= r.maxX && r.minY <= b <= r.maxY && PackCell(a, b) == PackCell(cx, cy);
      PackInjective(a, b, cx, cy);
    }
  }

  /** Appends `id` to the bucket of every cell of `r`, creating missing buckets. */
  function AddToCells(grid: Grid, id: EntityId, r: CellRange): (result: Grid)
    requires ValidRange(r)
    ensures forall cx, cy :: IsInt32(cx) && IsInt32(cy) ==>
              Bucket(result, PackCell(cx, cy)) ==
              Bucket(grid, PackCell(cx, cy)) + (if InRange(r, cx, cy) then [id] else [])
  {
    var keys := RangeKeys(r);
    var result := map k | k in grid.Keys + keys :: Bucket(grid, k) + (if k in keys then [id] else []);
    assert forall cx, cy | IsInt32(cx) && IsInt32(cy) ::
             Bucket(result, PackCell(cx, cy)) ==
             Bucket(grid, PackCell(cx, cy)) + (if InRange(r, cx, cy) then [id] else []) by {
      forall cx, cy | IsInt32(cx) && IsInt32(cy) {
        RangeKeysMembership(r, cx, cy);
      }
    }
    result
  }

  /** The cells a store entity occupies, from its current position and size. */
  function Footprint(w: World, id: EntityId, cellSize: int): CellRange
    requires cellSize > 0 && id in w.entities
  {
    var e := w.entities[id];
    CellsOf(BoxOf(e.position.current, e.size), cellSize)
  }

  /** Whether `id` belongs in the bucket of cell (cx, cy). */
  predicate Occupies(w: World, id: EntityId, cellSize: int, cx: int, cy: int)
    requires cellSize > 0
  {
    IsCollidable(w, id) && InRange(Footprint(w, id, cellSize), cx, cy)
  }

  /**
   * `begin`: clear the grid, then for every id of the collidable subscription
   * (in its order) that is still Collidable, add it to every covered cell.
   */
  function BuildGrid(w: World, subscription: seq<EntityId>, cellSize: int): Grid
    requires cellSize > 0
    decreases |subscription|
  {
    if subscription == [] then map[]
    else
      var grid := BuildGrid(w, subscription[..|subscription| - 1], cellSize);
      var id := subscription[|subscription| - 1];
      if IsCollidable(w, id) then AddToCells(grid, id, Footprint(w, id, cellSize)) else grid
  }

  /** Reference definition of a bucket: the subscription filtered to the cell's occupants. */
  function Occupants(w: World, subscription: seq<EntityId>, cellSize: int, cx: int, cy: int): seq<EntityId>
    requires cellSize > 0
  {
    if subscription == [] then []
    else
      (if Occupies(w, subscription[0], cellSize, cx, cy) then [subscription[0]] else [])
      + Occupants(w, subscription[1..], cellSize, cx, cy)
  }

  lemma {:induction false} OccupantsAppend(w: World, s: seq<EntityId>, id: EntityId, cellSize: int, cx: int, cy: int)
    requires cellSize > 0
    ensures Occupants(w, s + [id], cellSize, cx, cy) ==
            Occupants(w, s, cellSize, cx, cy) + (if Occupies(w, id, cellSize, cx, cy) then [id] else [])
    decreases |s|
  {
    if s == [] {
      assert [id][1..] == [];
    } else {
      assert (s + [id])[1..] == s[1..] + [id];
      OccupantsAppend(w, s[1..], id, cellSize, cx, cy);
    }
  }

  /**
   * The grid is rebuilt from scratch: the bucket of any cell lists, in
   * subscription order, exactly the ids that are still Collidable and whose
   * box covers that cell.
   */
  lemma {:induction false} BuildGridBuckets(w: World, subscription: seq<EntityId>, cellSize: int, cx: int, cy: int)
    requires cellSize > 0 && IsInt32(cx) && IsInt32(cy)
    ensures Bucket(BuildGrid(w, subscription, cellSize), PackCell(cx, cy)) ==
            Occupants(w, subscription, cellSize, cx, cy)
    decreases |subscription|
  {
    if subscription != [] {
      var prefix := subscription[..|subscription| - 1];
      var id := subscription[|subscription| - 1];
      BuildGridBuckets(w, prefix, cellSize, cx, cy);
      assert prefix + [id] == subscription;
      OccupantsAppend(w, prefix, id, cellSize, cx, cy);
    }
  }

  lemma {:induction false} OccupantsMembership(w: World, subscription: seq<EntityId>, cellSize: int, cx: int, cy: int, id: EntityId)
    requires cellSize > 0
    ensures id in Occupants(w, subscription, cellSize, cx, cy) <==>
            id in subscription && Occupies(w, id, cellSize, cx, cy)
    decreases |subscription|
  {
    if subscription != [] {
      OccupantsMembership(w, subscription[1..], cellSize, cx, cy, id);
      assert subscription == [subscription[0]] + subscription[1..];
    }
  }

  /**
   * A collidable id is in the bucket of cell (cx, cy) exactly when it is in
   * the subscription, is still Collidable, and cx and cy lie in the cell range
   * of its box.
   */
  lemma GridMembership(w: World, subscription: seq<EntityId>, cellSize: int, cx: int, cy: int, id: EntityId)
    requires cellSize > 0 && IsInt32(cx) && IsInt32(cy)
    ensures id in Bucket(BuildGrid(w, subscription, cellSize), PackCell(cx, cy)) <==>
            id in subscription && IsCollidable(w, id) && InRange(Footprint(w, id, cellSize), cx, cy)
  {
    BuildGridBuckets(w, subscription, cellSize, cx, cy);
    OccupantsMembership(w, subscription, cellSize, cx, cy, id);
  }

  // ---------------------------------------------------------------- query

  /** The keys of column `cx` from `cy` up to `maxY`: the inner loop. */
  function ColumnKeys(cx: int, cy: int, maxY: int): seq<int>
    requires IsInt32(cx) && IsInt32(cy) && IsInt32(maxY)
    decreases maxY - cy
  {
    if cy > maxY then [] else [PackCell(cx, cy)] + (if cy == maxY then [] else ColumnKeys(cx, cy + 1, maxY))
  }

  /** The keys of columns `cx` up to `r.maxX`: the outer loop. */
  function RangeKeySeq(r: CellRange, cx: int): seq<int>
    requires ValidRange(r) && IsInt32(cx)
    decreases r.maxX - cx
  {
    if cx > r.maxX then []
    else ColumnKeys(cx, r.minY, r.maxY) + (if cx == r.maxX then [] else RangeKeySeq(r, cx + 1))
  }

  lemma {:induction false} ColumnKeysMembership(cx: int, cy: int, maxY: int, k: int)
    requires IsInt32(cx) && IsInt32(cy) && IsInt32(maxY)
    ensures k in ColumnKeys(cx, cy, maxY) <==> exists y :: cy <= y <= maxY && k == PackCell(cx, y)
    decreases maxY - cy
  {
    if cy <= maxY {
      if cy != maxY {
        ColumnKeysMembership(cx, cy + 1, maxY, k);
      }
      if exists y :: cy <= y <= maxY && k == PackCell(cx, y) {
        var y :| cy <= y <= maxY && k == PackCell(cx, y);
        if y != cy {
          assert k in ColumnKeys(cx, cy + 1, maxY);
        }
      }
    }
  }

  lemma {:induction false} RangeKeySeqMembership(r: CellRange, cx: int, k: int)
    requires ValidRange(r) && IsInt32(cx)
    ensures k in RangeKeySeq(r, cx) <==>
            exists x, y :: cx <= x <= r.maxX && r.minY <= y <= r.maxY && k == PackCell(x, y)
    decreases r.maxX - cx
  {
    if cx <= r.maxX {
      ColumnKeysMembership(cx, r.minY, r.maxY, k);
      if cx != r.maxX {
        RangeKeySeqMembership(r, cx + 1, k);
      }
      if exists x, y :: cx <= x <= r.maxX && r.minY <= y <= r.maxY && k == PackCell(x, y) {
        var x, y :| cx <= x <= r.maxX && r.minY <= y <= r.maxY && k == PackCell(x, y);
        if x == cx {
          assert k in ColumnKeys(cx, r.minY, r.maxY);
        } else {
          assert k in RangeKeySeq(r, cx + 1);
        }
      }
    }
  }

  /** The buckets of the given keys, concatenated in key order. */
  function Gather(grid: Grid, keys: seq<int>): seq<EntityId> {
    if keys == [] then [] else Bucket(grid, keys[0]) + Gather(grid, keys[1..])
  }

  lemma {:induction false} GatherMembership(grid: Grid, keys: seq<int>, id: EntityId)
    ensures id in Gather(grid, keys) <==> exists k :: k in keys && id in Bucket(grid, k)
    decreases |keys|
  {
    if keys != [] {
      GatherMembership(grid, keys[1..], id);
      if exists k :: k in keys && id in Bucket(grid, k) {
        var k :| k in keys && id in Bucket(grid, k);
        if k != keys[0] {
          assert k in keys[1..];
        }
      }
    }
  }

  predicate NoDuplicates(s: seq<EntityId>) {
    forall i, j :: 0 <= i < j < |s| ==> s[i] != s[j]
  }

  /**
   * The per-sub-step `collidableTested` set: keeps the first occurrence of each
   * id not already in `seen`, in order.
   */
  function Dedup(s: seq<EntityId>, seen: set<EntityId>): (r: seq<EntityId>)
    ensures NoDuplicates(r)
    ensures forall id :: id in r <==> id in s && id !in seen
    decreases |s|
  {
    if s == [] then []
    else if s[0] in seen then Dedup(s[1..], seen)
    else [s[0]] + Dedup(s[1..], seen + {s[0]})
  }

  /**
   * The ids a probe whose cells are `r` tests, in test order: every bucket of
   * the range, x outer and y inner, each id once.
   */
  function Candidates(grid: Grid, r: CellRange): (c: seq<EntityId>)
    requires ValidRange(r)
    ensures NoDuplicates(c)
    ensures forall id :: id in c <==> id in Gather(grid, RangeKeySeq(r, r.minX))
  {
    Dedup(Gather(grid, RangeKeySeq(r, r.minX)), {})
  }

  /** Every candidate lies in the bucket of some cell of the range. */
  lemma CandidateHasCell(grid: Grid, r: CellRange, id: EntityId) returns (cx: int, cy: int)
    requires ValidRange(r)
    requires id in Candidates(grid, r)
    ensures InRange(r, cx, cy) && IsInt32(cx) && IsInt32(cy)
    ensures id in Bucket(grid, PackCell(cx, cy))
  {
    var keys := RangeKeySeq(r, r.minX);
    GatherMembership(grid, keys, id);
    var k :| k in keys && id in Bucket(grid, k);
    RangeKeySeqMembership(r, r.minX, k);
    cx, cy :| r.minX <= cx <= r.maxX && r.minY <= cy <= r.maxY && k == PackCell(cx, cy);
  }

  /** Every id in the bucket of a cell of the range is a candidate. */
  lemma CellOccupantIsCandidate(grid: Grid, r: CellRange, cx: int, cy: int, id: EntityId)
    requires ValidRange(r) && InRange(r, cx, cy)
    requires id in Bucket(grid, PackCell(cx, cy))
    ensures id in Candidates(grid, r)
  {
    var keys := RangeKeySeq(r, r.minX);
    RangeKeySeqMembership(r, r.minX, PackCell(cx, cy));
    GatherMembership(grid, keys, id);
  }

  /**
   * The broad phase misses nothing: an id of the subscription that is
   * Collidable and whose box strictly overlaps a well-formed probe is among the
   * probe's candidates in the grid built from the same store.
   */
  lemma BroadPhaseComplete(w: World, subscription: seq<EntityId>, cellSize: int, probe: Box, id: EntityId)
    requires cellSize > 0
    requires id in subscription && IsCollidable(w, id)
    requires WellFormed(probe)
    requires WellFormed(BoxOf(w.entities[id].position.current, w.entities[id].size))
    requires Overlaps(probe, BoxOf(w.entities[id].position.current, w.entities[id].size))
    ensures id in Candidates(BuildGrid(w, subscription, cellSize), CellsOf(probe, cellSize))
  {
    var b := BoxOf(w.entities[id].position.current, w.entities[id].size);
    var x := if probe.left < b.left then b.left else probe.left;
    var y := if probe.bottom < b.bottom then b.bottom else probe.bottom;
    PointInCellsOf(probe, cellSize, x, y);
    PointInCellsOf(b, cellSize, x, y);
    var cx, cy := CellCoord(x, cellSize), CellCoord(y, cellSize);
    GridMembership(w, subscription, cellSize, cx, cy, id);
    CellOccupantIsCandidate(BuildGrid(w, subscription, cellSize), CellsOf(probe, cellSize), cx, cy, id);
  }
}
