/**
  One epistemic world of the struct-based layer: an occupancy grid map, agent
  poses and agent goals, identified by a numeric id.
*/
module Worlds {
  /** Agents of this layer are small integers; the sensing agent is 0. */
  type Agent = nat

  const UINT32_LIMIT: nat := 0x1_0000_0000

  /** Occupancy of one grid cell. */
  datatype CellState = Unknown | Free | Occupied

  /** A 2D pose; carried along, never read by the modelled logic. */
  datatype Pose = Pose(x: real, y: real, theta: real)

  /** A row-major grid of cells with `uint32` dimensions. */
  datatype GridMap = GridMap(width: nat, height: nat, resolution: real, cells: seq<CellState>)

  /** One hypothesis about the map (`grid`), the poses and the goals. */
  datatype World = World(id: nat, grid: GridMap, poses: map<Agent, Pose>, goals: map<Agent, string>)

  /** The dimensions fit `uint32` and there is a cell for every coordinate pair. */
  predicate WellFormed(m: GridMap)
  {
    m.width < UINT32_LIMIT && m.height < UINT32_LIMIT && m.width * m.height <= |m.cells|
  }

  /** `y * width + x` computed in `uint32`, so it wraps modulo 2^32. */
  function CellIndex(m: GridMap, x: nat, y: nat): nat
  {
    (y * m.width + x) % UINT32_LIMIT
  }

  /** `GridMap::at`: the cell at the row-major index; the index must lie inside `cells`. */
  function At(m: GridMap, x: nat, y: nat): CellState
    requires x < UINT32_LIMIT && y < UINT32_LIMIT
    requires CellIndex(m, x, y) < |m.cells|
  {
    m.cells[CellIndex(m, x, y)]
  }

  lemma {:induction false} MulMonotonic(a: nat, b: nat, c: nat)
    requires a <= b
    ensures a * c <= b * c
    decreases b - a
  {
    if a < b {
      MulMonotonic(a, b - 1, c);
      assert b * c == (b - 1) * c + c;
    }
  }

  lemma SuccMul(y: nat, w: nat)
    ensures (y + 1) * w == y * w + w
  {
  }

  lemma RowMajorBound(w: nat, h: nat, x: nat, y: nat)
    requires x < w && y < h
    ensures y * w + x < w * h
  {
    MulMonotonic(y + 1, h, w);
    SuccMul(y, w);
    assert h * w == w * h;
  }

  lemma RowMajorUnique(w: nat, x1: nat, y1: nat, x2: nat, y2: nat)
    requires x1 < w && x2 < w && y1 * w + x1 == y2 * w + x2
    ensures x1 == x2 && y1 == y2
  {
    if y1 < y2 {
      SuccMul(y1, w);
      MulMonotonic(y1 + 1, y2, w);
      assert false;
    } else if y2 < y1 {
      SuccMul(y2, w);
      MulMonotonic(y2 + 1, y1, w);
      assert false;
    }
  }

  /** A value below 2^32 is unchanged by the `uint32` wrap; any value only shrinks. */
  lemma WrapBelow(i: nat)
    ensures i % UINT32_LIMIT <= i
    ensures i < UINT32_LIMIT ==> i % UINT32_LIMIT == i
  {
  }

  /**
    Inside the grid the row-major index is below `width * height`; when that
    product fits in `uint32` the wrap never happens and distinct in-range
    pairs get distinct cells.
  */
  lemma CellIndexInjective(m: GridMap, x1: nat, y1: nat, x2: nat, y2: nat)
    requires x1 < m.width && y1 < m.height && x2 < m.width && y2 < m.height
    requires m.width * m.height <= UINT32_LIMIT
    ensures CellIndex(m, x1, y1) == y1 * m.width + x1 < m.width * m.height
    ensures CellIndex(m, x1, y1) == CellIndex(m, x2, y2) <==> x1 == x2 && y1 == y2
  {
    RowMajorBound(m.width, m.height, x1, y1);
    RowMajorBound(m.width, m.height, x2, y2);
    WrapBelow(y1 * m.width + x1);
    WrapBelow(y2 * m.width + x2);
    if CellIndex(m, x1, y1) == CellIndex(m, x2, y2) {
      RowMajorUnique(m.width, x1, y1, x2, y2);
    }
  }

  /** A well-formed map has a cell for every in-range coordinate pair, wrap or not. */
  lemma CellIndexInBounds(m: GridMap, x: nat, y: nat)
    requires WellFormed(m) && x < m.width && y < m.height
    ensures CellIndex(m, x, y) < |m.cells|
  {
    RowMajorBound(m.width, m.height, x, y);
    WrapBelow(y * m.width + x);
  }

  /** `World::operator==`: worlds are the same when their ids are. */
  predicate SameWorld(a: World, b: World)
  {
    a.id == b.id
  }

  /**
    World equality ignores the map, the poses and the goals, and is an
    equivalence relation.
  */
  lemma SameWorldIsEquivalence(a: World, b: World, c: World, m: GridMap)
    ensures SameWorld(a, a)
    ensures SameWorld(a, b) ==> SameWorld(b, a)
    ensures SameWorld(a, b) && SameWorld(b, c) ==> SameWorld(a, c)
    ensures SameWorld(a, a.(grid := m, poses := map[], goals := map[]))
    ensures a.id != b.id ==> !SameWorld(a, b)
  {
  }
}
