/**
 * The Poisson-disc spatial hash of crates/rg_terrain/src/poisson.rs.
 *
 * `PoissonGrid` covers the unit square with `resolution` × `resolution`
 * cells of side `cell_size` and keeps at most one point per cell in a
 * column-major buffer (twice as long as it needs to be); an empty slot holds
 * NaN, modelled as `None`.  `poisson_disc_sampling` grows a set of points
 * from a seed, each new point a random offset from the last active point,
 * accepted when no stored point lies within `min_radius` of it in the
 * neighbouring cells.  The random draws are parameters.
 */
module Poisson {
  import opened Wrappers
  import opened Grids
  import opened MeshData
  import opened Arith
  import Chunk

  /** `MAX_TRIES`: candidates drawn around an active point before it is retired. */
  const MaxTries: nat := 10

  /** `cell_pos`: the cell a point falls in. */
  function CellPos(point: Vec2, cellSize: real): IVec2
    requires cellSize > 0.0
  {
    IVec2((point.x / cellSize).Floor, (point.y / cellSize).Floor)
  }

  /** The cell of a point is the square of side cellSize at cell · cellSize that holds it. */
  lemma PointInCell(point: Vec2, cellSize: real)
    requires cellSize > 0.0
    ensures var c := CellPos(point, cellSize);
      c.x as real * cellSize <= point.x < c.x as real * cellSize + cellSize &&
      c.y as real * cellSize <= point.y < c.y as real * cellSize + cellSize
  {
    FloorBounds(point.x, cellSize, (point.x / cellSize).Floor);
    FloorBounds(point.y, cellSize, (point.y / cellSize).Floor);
  }

  /** `cell_index`: column-major, x * resolution + y; an inside cell is resolution cells past its column's start. */
  function CellIndex(cell: IVec2, res: nat): (i: int)
    ensures IsInside(cell, res) ==> cell.x * res <= i < cell.x * res + res
  {
    cell.x * res + cell.y
  }

  /** `is_inside`. */
  predicate IsInside(cell: IVec2, res: nat) {
    0 <= cell.x < res && 0 <= cell.y < res
  }

  /** An inside cell has an index below resolution², and no other inside cell shares it. */
  lemma CellIndexInRange(cell: IVec2, res: nat)
    requires IsInside(cell, res)
    ensures 0 <= CellIndex(cell, res) < res * res
  {
    RowMajorBound(cell.y, cell.x, res, res);
  }

  lemma CellIndexInjective(a: IVec2, b: IVec2, res: nat)
    requires IsInside(a, res) && IsInside(b, res) && CellIndex(a, res) == CellIndex(b, res)
    ensures a == b
  {
    DivModUnique(CellIndex(a, res), res, a.x, a.y);
    DivModUnique(CellIndex(b, res), res, b.x, b.y);
  }

  /** `(1 / cell_size).ceil()` is at least 1. */
  lemma CeilPositive(x: real)
    requires x > 0.0
    ensures Chunk.Ceil(x) >= 1
  {
  }

  /** A point of the unit square falls in an inside cell. */
  lemma UnitPointInside(p: Vec2, cellSize: real, res: nat)
    requires cellSize > 0.0 && res == Chunk.Ceil(1.0 / cellSize)
    requires 0.0 <= p.x < 1.0 && 0.0 <= p.y < 1.0
    ensures IsInside(CellPos(p, cellSize), res)
  {
    var inv := 1.0 / cellSize;
    assert p.x / cellSize < inv && p.y / cellSize < inv;
    assert p.x / cellSize >= 0.0 && p.y / cellSize >= 0.0;
  }

  /** A stored point `distance_squared(point) < min_radius²` away from the point, in an inside cell. */
  predicate NearAt(points: seq<Option<Vec2>>, res: nat, cell: IVec2, point: Vec2, radiusSq: real) {
    IsInside(cell, res) && 0 <= CellIndex(cell, res) < |points| &&
    match points[CellIndex(cell, res)]
    case None => false
    case Some(q) => Chunk.DistanceSquared(q, point) < radiusSq
  }

  /**
   * The reference meaning of a neighbourhood search: some cell at most
   * `reach` cells from the point's cell on both axes holds a point nearer
   * than the radius.
   */
  predicate NearWithin(points: seq<Option<Vec2>>, res: nat, cellSize: real, point: Vec2, radiusSq: real, reach: nat)
    requires cellSize > 0.0
  {
    exists dx: int, dy: int | -(reach as int) <= dx <= reach && -(reach as int) <= dy <= reach ::
      NearAt(points, res, CellPos(point, cellSize).Plus(IVec2(dx, dy)), point, radiusSq)
  }

  /** The k-th offset the nested `for sx, for sy` loops of the search visit. */
  function Offset(k: nat, reach: nat): IVec2 {
    var w := 2 * reach + 1;
    IVec2(k / w - reach, k % w - reach)
  }

  /** The search from the k-th offset on: true as soon as an offset's cell holds a near point. */
  function ScanNear(points: seq<Option<Vec2>>, res: nat, cellSize: real, point: Vec2, radiusSq: real, reach: nat, k: nat): bool
    requires cellSize > 0.0
    decreases (2 * reach + 1) * (2 * reach + 1) - k
  {
    if k >= (2 * reach + 1) * (2 * reach + 1) then false
    else
      (NearAt(points, res, CellPos(point, cellSize).Plus(Offset(k, reach)), point, radiusSq) ||
       ScanNear(points, res, cellSize, point, radiusSq, reach, k + 1))
  }

  /** The offsets visited are exactly the square of half-side `reach`, each once. */
  lemma OffsetInSquare(k: nat, reach: nat)
    requires k < (2 * reach + 1) * (2 * reach + 1)
    ensures -(reach as int) <= Offset(k, reach).x <= reach && -(reach as int) <= Offset(k, reach).y <= reach
  {
    RowMajorCell(2 * reach + 1, 2 * reach + 1, k);
  }

  lemma OffsetOnto(dx: int, dy: int, reach: nat) returns (k: nat)
    requires -(reach as int) <= dx <= reach && -(reach as int) <= dy <= reach
    ensures k < (2 * reach + 1) * (2 * reach + 1) && Offset(k, reach) == IVec2(dx, dy)
  {
    var w, a, b := 2 * reach + 1, dx + reach, dy + reach;
    k := a * w + b;
    RowMajorBound(b, a, w, w);
    DivModUnique(k, w, a, b);
    assert k / w - reach == dx && k % w - reach == dy;
  }

  /** The search from offset k finds a near point iff one of the offsets from k on has one. */
  lemma {:induction false} ScanNearFrom(points: seq<Option<Vec2>>, res: nat, cellSize: real, point: Vec2, radiusSq: real, reach: nat, k: nat)
    requires cellSize > 0.0
    ensures ScanNear(points, res, cellSize, point, radiusSq, reach, k) <==>
      exists j | k <= j < (2 * reach + 1) * (2 * reach + 1) ::
        NearAt(points, res, CellPos(point, cellSize).Plus(Offset(j, reach)), point, radiusSq)
    decreases (2 * reach + 1) * (2 * reach + 1) - k
  {
    if k < (2 * reach + 1) * (2 * reach + 1) {
      ScanNearFrom(points, res, cellSize, point, radiusSq, reach, k + 1);
    }
  }

  /** The search agrees with its reference meaning. */
  lemma ScanNearIff(points: seq<Option<Vec2>>, res: nat, cellSize: real, point: Vec2, radiusSq: real, reach: nat)
    requires cellSize > 0.0
    ensures ScanNear(points, res, cellSize, point, radiusSq, reach, 0) <==> NearWithin(points, res, cellSize, point, radiusSq, reach)
  {
    ScanNearFrom(points, res, cellSize, point, radiusSq, reach, 0);
    var c := CellPos(point, cellSize);
    if ScanNear(points, res, cellSize, point, radiusSq, reach, 0) {
      var j :| 0 <= j < (2 * reach + 1) * (2 * reach + 1) && NearAt(points, res, c.Plus(Offset(j, reach)), point, radiusSq);
      OffsetInSquare(j, reach);
      var d := Offset(j, reach);
      assert NearAt(points, res, c.Plus(IVec2(d.x, d.y)), point, radiusSq);
    }
    if NearWithin(points, res, cellSize, point, radiusSq, reach) {
      var dx: int, dy: int :| -(reach as int) <= dx <= reach && -(reach as int) <= dy <= reach && NearAt(points, res, c.Plus(IVec2(dx, dy)), point, radiusSq);
      var j := OffsetOnto(dx, dy, reach);
      assert NearAt(points, res, c.Plus(Offset(j, reach)), point, radiusSq);
    }
  }

  // ---------------------------------------------------------------------
  // Geometry of the cells

  lemma ProductSigns(a: real, b: real)
    requires b > 0.0
    ensures a >= 0.0 ==> a * b >= 0.0
    ensures a > 0.0 ==> a * b > 0.0
    ensures a < 0.0 ==> a * b < 0.0
    ensures a <= 0.0 ==> a * b <= 0.0
  {
  }

  lemma QuotientDiff(u: real, v: real, c: real)
    requires c > 0.0
    ensures u / c - v / c == (u - v) / c
  {
  }

  /** For a positive c, x lies strictly within m·c of 0 iff x / c lies strictly within m. */
  lemma QuotientBounds(x: real, c: real, m: real)
    requires c > 0.0 && m > 0.0
    ensures -m * c < x < m * c <==> -m < x / c < m
  {
    var q := x / c;
    assert x == q * c;
    assert m * c - x == (m - q) * c;
    assert x + m * c == (q + m) * c;
    ProductSigns(m - q, c);
    ProductSigns(q + m, c);
  }

  /** Coordinates in one column of cells are less than a cell side apart. */
  lemma SameColumn(u: real, v: real, c: real)
    requires c > 0.0 && (u / c).Floor == (v / c).Floor
    ensures -c < u - v < c
  {
    QuotientDiff(u, v, c);
    QuotientBounds(u - v, c, 1.0);
  }

  /** Offsets of less than a side on both axes are shorter than the diagonal. */
  lemma DiagonalBound(a: Vec2, b: Vec2, c: real)
    requires c > 0.0 && -c < a.x - b.x < c && -c < a.y - b.y < c
    ensures Chunk.DistanceSquared(a, b) < 2.0 * c * c
  {
    SquareBelow(a.x - b.x, c);
    SquareBelow(a.y - b.y, c);
  }

  /** Coordinates less than two cell sides apart lie in columns at most two apart. */
  lemma CloseColumns(u: real, v: real, c: real)
    requires c > 0.0 && -2.0 * c < u - v < 2.0 * c
    ensures -2 <= (u / c).Floor - (v / c).Floor <= 2
  {
    QuotientBounds(u - v, c, 2.0);
    QuotientDiff(u, v, c);
  }

  lemma SquareBelow(d: real, c: real)
    requires c > 0.0 && -c < d < c
    ensures d * d < c * c
  {
    ProductSigns(c + d, c - d);
    assert (c + d) * (c - d) == c * c - d * d;
  }

  lemma SquareAbove(d: real, c: real)
    requires c > 0.0
    ensures d * d >= 0.0
    ensures d * d < c * c ==> -c < d < c
  {
    if d > 0.0 {
      ProductSigns(d, d);
    } else if d < 0.0 {
      ProductSigns(-d, -d);
      assert d * d == (-d) * (-d);
    }
    if d >= c {
      ProductSigns(d - c, d + c);
      assert d * d - c * c == (d - c) * (d + c);
    } else if d <= -c {
      ProductSigns(-d - c, c - d);
      assert d * d - c * c == (-d - c) * (c - d);
    }
  }

  /** Two points of one cell are nearer than the cell's diagonal. */
  lemma SameCellClose(a: Vec2, b: Vec2, cellSize: real)
    requires cellSize > 0.0 && CellPos(a, cellSize) == CellPos(b, cellSize)
    ensures Chunk.DistanceSquared(a, b) < 2.0 * cellSize * cellSize
  {
    SameColumn(a.x, b.x, cellSize);
    SameColumn(a.y, b.y, cellSize);
    DiagonalBound(a, b, cellSize);
  }

  /**
   * With cells of side min_radius / √2, a point nearer than min_radius lies
   * at most two cells away on both axes.
   */
  lemma NearWithinTwoCells(a: Vec2, b: Vec2, cellSize: real, radiusSq: real)
    requires cellSize > 0.0 && radiusSq == 2.0 * cellSize * cellSize
    requires Chunk.DistanceSquared(a, b) < radiusSq
    ensures var d := CellPos(a, cellSize).Minus(CellPos(b, cellSize)); -2 <= d.x <= 2 && -2 <= d.y <= 2
  {
    var dx, dy := a.x - b.x, a.y - b.y;
    var c := 2.0 * cellSize;
    assert c * c == 2.0 * radiusSq;
    SquareAbove(dx, c);
    SquareAbove(dy, c);
    CloseColumns(a.x, b.x, cellSize);
    CloseColumns(a.y, b.y, cellSize);
  }

  class PoissonGrid {
    const cellSize: real
    const resolution: nat
    var points: seq<Option<Vec2>>

    predicate Valid() reads this {
      cellSize > 0.0 && resolution == Chunk.Ceil(1.0 / cellSize) && |points| == 2 * (resolution * resolution)
    }

    /**
     * `new`: resolution is `ceil(1 / cell_size)` (at least 1) and the buffer
     * holds 2 · resolution² empty slots.
     */
    constructor (cellSize: real)
      requires cellSize > 0.0
      ensures Valid() && this.cellSize == cellSize && resolution >= 1
      ensures forall i | 0 <= i < |points| :: points[i] == None
    {
      CeilPositive(1.0 / cellSize);
      this.cellSize := cellSize;
      var res: nat := Chunk.Ceil(1.0 / cellSize);
      resolution := res;
      points := seq(2 * (res * res), _ => None);
    }

    /**
     * `get`: None outside the grid or for an empty slot, else the stored
     * point of the cell.
     */
    function Get(cell: IVec2): (r: Option<Vec2>)
      reads this
      requires Valid()
      ensures !IsInside(cell, resolution) ==> r == None
      ensures IsInside(cell, resolution) ==> 0 <= CellIndex(cell, resolution) < |points| && r == points[CellIndex(cell, resolution)]
    {
      if IsInside(cell, resolution) then
        CellIndexInRange(cell, resolution);
        points[CellIndex(cell, resolution)]
      else None
    }

    /**
     * `add`: the point is stored in its cell's slot, replacing whatever was
     * there; every other cell keeps its point.
     */
    method Add(point: Vec2)
      requires Valid() && IsInside(CellPos(point, cellSize), resolution)
      modifies this`points
      ensures Valid()
      ensures var i := CellIndex(CellPos(point, cellSize), resolution); 0 <= i < |old(points)| && points == old(points)[i := Some(point)]
      ensures Get(CellPos(point, cellSize)) == Some(point)
      ensures forall c | c != CellPos(point, cellSize) :: Get(c) == old(Get(c))
    {
      var cell := CellPos(point, cellSize);
      CellIndexInRange(cell, resolution);
      points := points[CellIndex(cell, resolution) := Some(point)];
      forall c | c != cell ensures Get(c) == old(Get(c)) {
        if IsInside(c, resolution) {
          CellIndexInRange(c, resolution);
          if CellIndex(c, resolution) == CellIndex(cell, resolution) {
            CellIndexInjective(c, cell, resolution);
          }
        }
      }
    }

    /**
     * `has_near`: some stored point in the 3 × 3 block of cells around the
     * point's cell lies strictly nearer than `min_radius`; empty slots never
     * count.
     */
    predicate HasNear(point: Vec2, minRadius: real)
      reads this
      requires Valid()
      ensures HasNear(point, minRadius) <==> NearWithin(points, resolution, cellSize, point, minRadius * minRadius, 1)
    {
      ScanNearIff(points, resolution, cellSize, point, minRadius * minRadius, 1);
      ScanNear(points, resolution, cellSize, point, minRadius * minRadius, 1, 0)
    }

    /** The search over the 5 × 5 block, which cells of side min_radius / √2 need. */
    predicate HasNearCorrected(point: Vec2, minRadius: real)
      reads this
      requires Valid()
      ensures HasNearCorrected(point, minRadius) <==> NearWithin(points, resolution, cellSize, point, minRadius * minRadius, 2)
    {
      ScanNearIff(points, resolution, cellSize, point, minRadius * minRadius, 2);
      ScanNear(points, resolution, cellSize, point, minRadius * minRadius, 2, 0)
    }
  }

  /**
   * The 3 × 3 search misses near points two cells away: with cells of side
   * 0.25 and min_radius² = 0.125 (so cell_size = min_radius / √2 and the
   * resolution is 4), a grid holding only (0.225, 0.125), in cell (0, 0),
   * has nothing near (0.525, 0.125), in cell (2, 0), within the 3 × 3 block
   * `HasNear` searches, although the two are 0.3 apart, less than
   * min_radius ≈ 0.354.
   */
  lemma HasNearMissesTwoCellsAway(points: seq<Option<Vec2>>, q: Vec2)
    requires |points| == 32 && points[0] == Some(Vec2(0.225, 0.125))
    requires forall i | 1 <= i < 32 :: points[i] == None
    requires q == Vec2(0.525, 0.125)
    ensures Chunk.DistanceSquared(points[0].value, q) < 0.125
    ensures !NearWithin(points, 4, 0.25, q, 0.125, 1)
  {
    ExampleMissedByThreeByThree(points, q);
    ExampleDistance(points[0].value, q);
  }

  /** On the same grid, the 5 × 5 block of `HasNearCorrected` holds the near point. */
  lemma HasNearCorrectedFindsTwoCellsAway(points: seq<Option<Vec2>>, q: Vec2)
    requires |points| == 32 && points[0] == Some(Vec2(0.225, 0.125))
    requires q == Vec2(0.525, 0.125)
    ensures NearWithin(points, 4, 0.25, q, 0.125, 2)
  {
    ExampleNearOrigin(points, q);
    ExampleTwoCellsLeft(q);
    assert NearAt(points, 4, CellPos(q, 0.25).Plus(IVec2(-2, 0)), q, 0.125);
  }

  lemma ExampleNearOrigin(points: seq<Option<Vec2>>, q: Vec2)
    requires |points| == 32 && points[0] == Some(Vec2(0.225, 0.125))
    requires q == Vec2(0.525, 0.125)
    ensures NearAt(points, 4, IVec2(0, 0), q, 0.125)
  {
    ExampleDistance(points[0].value, q);
    NearAtFirstCell(points, 4, q, 0.125);
  }

  lemma ExampleTwoCellsLeft(q: Vec2)
    requires q == Vec2(0.525, 0.125)
    ensures CellPos(q, 0.25).Plus(IVec2(-2, 0)) == IVec2(0, 0)
  {
    var c := CellOfExample(q);
  }

  lemma ExampleMissedByThreeByThree(points: seq<Option<Vec2>>, q: Vec2)
    requires |points| == 32 && forall i | 1 <= i < 32 :: points[i] == None
    requires q == Vec2(0.525, 0.125)
    ensures !NearWithin(points, 4, 0.25, q, 0.125, 1)
  {
    var c := CellOfExample(q);
    NothingInThreeByThree(points, c, q);
  }

  /** A point stored in slot 0 belongs to cell (0, 0). */
  lemma NearAtFirstCell(points: seq<Option<Vec2>>, res: nat, q: Vec2, radiusSq: real)
    requires res > 0 && |points| > 0 && points[0].Some? && Chunk.DistanceSquared(points[0].value, q) < radiusSq
    ensures NearAt(points, res, IVec2(0, 0), q, radiusSq)
  {
    assert CellIndex(IVec2(0, 0), res) == 0;
  }

  lemma ExampleDistance(p: Vec2, q: Vec2)
    requires p == Vec2(0.225, 0.125) && q == Vec2(0.525, 0.125)
    ensures Chunk.DistanceSquared(p, q) == 0.09
  {
    var dx, dy := p.x - q.x, p.y - q.y;
    assert dx == -0.3 && dy == 0.0;
    assert dx * dx == 0.09;
  }

  lemma CellOfExample(q: Vec2) returns (c: IVec2)
    requires q == Vec2(0.525, 0.125)
    ensures c == CellPos(q, 0.25) == IVec2(2, 0)
  {
    assert q.x / 0.25 == 2.1 && q.y / 0.25 == 0.5;
    c := CellPos(q, 0.25);
  }

  lemma NothingInThreeByThree(points: seq<Option<Vec2>>, c: IVec2, q: Vec2)
    requires |points| == 32 && forall i | 1 <= i < 32 :: points[i] == None
    requires c == IVec2(2, 0)
    ensures forall dx: int, dy: int | -1 <= dx <= 1 && -1 <= dy <= 1 :: !NearAt(points, 4, c.Plus(IVec2(dx, dy)), q, 0.125)
  {
    forall dx: int, dy: int | -1 <= dx <= 1 && -1 <= dy <= 1
      ensures !NearAt(points, 4, c.Plus(IVec2(dx, dy)), q, 0.125)
    {
      var n := c.Plus(IVec2(dx, dy));
      if IsInside(n, 4) {
        assert CellIndex(n, 4) >= 4;
      }
    }
  }

  // ---------------------------------------------------------------------
  // Sampling

  /** A point moved by an offset (`active + sample_disc(..)`). */
  function Displaced(p: Vec2, d: Vec2): Vec2 {
    Vec2(p.x + d.x, p.y + d.y)
  }

  /** The range of `sample_seed`: the middle half of the unit square on both axes. */
  predicate InSeedRange(p: Vec2) {
    0.25 <= p.x < 0.75 && 0.25 <= p.y < 0.75
  }

  /** The bounds a candidate must lie within to be considered at all. */
  predicate InSampleRange(p: Vec2, minRadius: real) {
    0.0 <= p.x < 1.0 - minRadius * 0.5 && 0.0 <= p.y < 1.0 - minRadius * 0.5
  }

  predicate InUnitSquare(p: Vec2) {
    0.0 <= p.x < 1.0 && 0.0 <= p.y < 1.0
  }

  /** No two points of the sequence are nearer than the radius. */
  predicate Separated(ps: seq<Vec2>, radiusSq: real) {
    forall i, j | 0 <= i < j < |ps| :: Chunk.DistanceSquared(ps[i], ps[j]) >= radiusSq
  }

  /**
   * The grid holds exactly the accepted points: each sits in the slot of
   * its own cell, and each filled slot holds an accepted point of that cell.
   */
  predicate StoredExactly(points: seq<Option<Vec2>>, res: nat, cellSize: real, accepted: seq<Vec2>)
    requires cellSize > 0.0
  {
    (forall i | 0 <= i < |accepted| ::
       IsInside(CellPos(accepted[i], cellSize), res) &&
       0 <= CellIndex(CellPos(accepted[i], cellSize), res) < |points| &&
       points[CellIndex(CellPos(accepted[i], cellSize), res)] == Some(accepted[i])) &&
    (forall k | 0 <= k < |points| && points[k].Some? ::
       points[k].value in accepted && CellIndex(CellPos(points[k].value, cellSize), res) == k)
  }

  /** The number of empty slots, which every accepted point lowers. */
  function EmptySlots(points: seq<Option<Vec2>>): nat {
    multiset(points)[None]
  }

  lemma FillSlot(points: seq<Option<Vec2>>, s: nat, p: Vec2)
    requires s < |points| && points[s] == None
    ensures EmptySlots(points[s := Some(p)]) == EmptySlots(points) - 1
  {
    assert points == points[..s] + [None] + points[s + 1..];
    assert points[s := Some(p)] == points[..s] + [Some(p)] + points[s + 1..];
  }

  lemma DistanceSymmetric(a: Vec2, b: Vec2)
    ensures Chunk.DistanceSquared(a, b) == Chunk.DistanceSquared(b, a)
  {
    assert (a.x - b.x) * (a.x - b.x) == (b.x - a.x) * (b.x - a.x);
    assert (a.y - b.y) * (a.y - b.y) == (b.y - a.y) * (b.y - a.y);
  }

  /**
   * With cells of side min_radius / √2, a stored point nearer than
   * min_radius to p is seen by the 5 × 5 search around p.
   */
  lemma StoredCloseIsNear(points: seq<Option<Vec2>>, res: nat, cellSize: real, radiusSq: real, a: Vec2, p: Vec2)
    requires cellSize > 0.0 && radiusSq == 2.0 * cellSize * cellSize
    requires IsInside(CellPos(a, cellSize), res) && 0 <= CellIndex(CellPos(a, cellSize), res) < |points|
    requires points[CellIndex(CellPos(a, cellSize), res)] == Some(a)
    ensures Chunk.DistanceSquared(a, p) < radiusSq ==> NearWithin(points, res, cellSize, p, radiusSq, 2)
  {
    if Chunk.DistanceSquared(a, p) < radiusSq {
      NearWithinTwoCells(a, p, cellSize, radiusSq);
      var d := CellPos(a, cellSize).Minus(CellPos(p, cellSize));
      assert CellPos(p, cellSize).Plus(IVec2(d.x, d.y)) == CellPos(a, cellSize);
      assert NearAt(points, res, CellPos(p, cellSize).Plus(IVec2(d.x, d.y)), p, radiusSq);
    }
  }

  /** A filled slot in p's own cell holds a point nearer than min_radius to p. */
  lemma OccupiedCellIsNear(points: seq<Option<Vec2>>, res: nat, cellSize: real, radiusSq: real, accepted: seq<Vec2>, p: Vec2)
    requires cellSize > 0.0 && radiusSq == 2.0 * cellSize * cellSize
    requires StoredExactly(points, res, cellSize, accepted)
    requires IsInside(CellPos(p, cellSize), res) && 0 <= CellIndex(CellPos(p, cellSize), res) < |points|
    ensures points[CellIndex(CellPos(p, cellSize), res)].Some? ==> NearWithin(points, res, cellSize, p, radiusSq, 2)
  {
    var c := CellPos(p, cellSize);
    var s := CellIndex(c, res);
    if points[s].Some? {
      var q := points[s].value;
      var i :| 0 <= i < |accepted| && accepted[i] == q;
      CellIndexInjective(CellPos(q, cellSize), c, res);
      SameCellClose(q, p, cellSize);
      assert c.Plus(IVec2(0, 0)) == c;
      assert NearAt(points, res, c.Plus(IVec2(0, 0)), p, radiusSq);
    }
  }

  /** Storing a point in an empty slot of its cell keeps the grid holding exactly the accepted points. */
  lemma StoreAccepted(points: seq<Option<Vec2>>, res: nat, cellSize: real, accepted: seq<Vec2>, p: Vec2)
    requires cellSize > 0.0 && StoredExactly(points, res, cellSize, accepted)
    requires IsInside(CellPos(p, cellSize), res)
    requires 0 <= CellIndex(CellPos(p, cellSize), res) < |points| && points[CellIndex(CellPos(p, cellSize), res)] == None
    ensures StoredExactly(points[CellIndex(CellPos(p, cellSize), res) := Some(p)], res, cellSize, accepted + [p])
  {
    var s := CellIndex(CellPos(p, cellSize), res);
    var points' := points[s := Some(p)];
    var accepted' := accepted + [p];
    forall i | 0 <= i < |accepted'|
      ensures IsInside(CellPos(accepted'[i], cellSize), res)
      ensures 0 <= CellIndex(CellPos(accepted'[i], cellSize), res) < |points'|
      ensures points'[CellIndex(CellPos(accepted'[i], cellSize), res)] == Some(accepted'[i])
    {
      if i < |accepted| {
        assert accepted'[i] == accepted[i];
      }
    }
    forall k | 0 <= k < |points'| && points'[k].Some?
      ensures points'[k].value in accepted'
      ensures CellIndex(CellPos(points'[k].value, cellSize), res) == k
    {
      if k != s {
        assert points'[k] == points[k];
      }
    }
  }

  /**
   * The invariant of `poisson_disc_sampling`'s loop: the grid's shape, the
   * accepted points in the unit square, pairwise at least min_radius
   * apart and stored exactly, and every active point an accepted one.
   */
  predicate SamplerInv(points: seq<Option<Vec2>>, res: nat, cellSize: real, radiusSq: real, accepted: seq<Vec2>, active: seq<Vec2>) {
    cellSize > 0.0 && radiusSq == 2.0 * cellSize * cellSize && |points| == 2 * (res * res) &&
    (forall i | 0 <= i < |accepted| :: InUnitSquare(accepted[i])) &&
    Separated(accepted, radiusSq) &&
    StoredExactly(points, res, cellSize, accepted) &&
    (forall i | 0 <= i < |active| :: active[i] in accepted)
  }

  /**
   * A candidate inside the grid that the 5 × 5 search rejects nothing for
   * lies in an empty slot, at least min_radius from every accepted point,
   * and storing it keeps the invariant.
   */
  lemma AcceptStep(points: seq<Option<Vec2>>, res: nat, cellSize: real, radiusSq: real, accepted: seq<Vec2>, active: seq<Vec2>, p: Vec2)
    requires SamplerInv(points, res, cellSize, radiusSq, accepted, active)
    requires InUnitSquare(p) && IsInside(CellPos(p, cellSize), res)
    requires !NearWithin(points, res, cellSize, p, radiusSq, 2)
    ensures var s := CellIndex(CellPos(p, cellSize), res);
      (0 <= s < |points| && points[s] == None &&
       SamplerInv(points[s := Some(p)], res, cellSize, radiusSq, accepted + [p], active + [p]))
  {
    CellIndexInRange(CellPos(p, cellSize), res);
    OccupiedCellIsNear(points, res, cellSize, radiusSq, accepted, p);
    StoreAccepted(points, res, cellSize, accepted, p);
    FarFromAccepted(points, res, cellSize, radiusSq, accepted, p);
    SeparatedAppend(accepted, p, radiusSq);
    var accepted' := accepted + [p];
    assert forall i | 0 <= i < |accepted'| :: InUnitSquare(accepted'[i]) by {
      forall i | 0 <= i < |accepted'| ensures InUnitSquare(accepted'[i]) {
        if i < |accepted| {
          assert accepted'[i] == accepted[i];
        }
      }
    }
  }

  /** A candidate the 5 × 5 search finds nothing near is at least the radius from every accepted point. */
  lemma FarFromAccepted(points: seq<Option<Vec2>>, res: nat, cellSize: real, radiusSq: real, accepted: seq<Vec2>, p: Vec2)
    requires cellSize > 0.0 && radiusSq == 2.0 * cellSize * cellSize
    requires StoredExactly(points, res, cellSize, accepted)
    requires !NearWithin(points, res, cellSize, p, radiusSq, 2)
    ensures forall i | 0 <= i < |accepted| :: Chunk.DistanceSquared(accepted[i], p) >= radiusSq
  {
    forall i | 0 <= i < |accepted| ensures Chunk.DistanceSquared(accepted[i], p) >= radiusSq {
      StoredCloseIsNear(points, res, cellSize, radiusSq, accepted[i], p);
    }
  }

  lemma SeparatedAppend(ps: seq<Vec2>, p: Vec2, radiusSq: real)
    requires Separated(ps, radiusSq)
    requires forall i | 0 <= i < |ps| :: Chunk.DistanceSquared(ps[i], p) >= radiusSq
    ensures Separated(ps + [p], radiusSq)
  {
    var ps' := ps + [p];
    forall i, j | 0 <= i < j < |ps'| ensures Chunk.DistanceSquared(ps'[i], ps'[j]) >= radiusSq {
      assert ps'[i] == ps[i];
      if j < |ps| {
        assert ps'[j] == ps[j];
      }
    }
  }

  /**
   * Distinct filled slots of a grid holding exactly some separated points
   * hold points at least the radius apart.
   */
  lemma GridSeparated(points: seq<Option<Vec2>>, res: nat, cellSize: real, radiusSq: real, accepted: seq<Vec2>)
    requires cellSize > 0.0 && StoredExactly(points, res, cellSize, accepted) && Separated(accepted, radiusSq)
    ensures forall k, l | 0 <= k < l < |points| && points[k].Some? && points[l].Some? ::
      Chunk.DistanceSquared(points[k].value, points[l].value) >= radiusSq
  {
    forall k, l | 0 <= k < l < |points| && points[k].Some? && points[l].Some?
      ensures Chunk.DistanceSquared(points[k].value, points[l].value) >= radiusSq
    {
      var i :| 0 <= i < |accepted| && accepted[i] == points[k].value;
      var j :| 0 <= j < |accepted| && accepted[j] == points[l].value;
      if j < i {
        DistanceSymmetric(accepted[j], accepted[i]);
      }
    }
  }

  /**
   * The inner `for` loop of `poisson_disc_sampling`: up to `MAX_TRIES`
   * candidates, each the active point moved by the next draw of
   * `sample_disc`; the first inside the sampling bounds with no stored
   * point near it is returned.  `draws` counts the draws taken so far.
   */
  method TryNeighbors(grid: PoissonGrid, active: Vec2, minRadius: real, disc: nat -> Vec2, draws: nat)
    returns (found: Option<Vec2>, draws': nat)
    requires grid.Valid()
    ensures draws < draws' <= draws + MaxTries
    ensures forall k | draws <= k < draws' - 1 ::
      var c := Displaced(active, disc(k)); !InSampleRange(c, minRadius) || grid.HasNearCorrected(c, minRadius)
    ensures found.Some? ==> found.value == Displaced(active, disc(draws' - 1))
    ensures var c := Displaced(active, disc(draws' - 1));
      found.Some? <==> InSampleRange(c, minRadius) && !grid.HasNearCorrected(c, minRadius)
    ensures found.None? ==> draws' == draws + MaxTries
  {
    draws' := draws;
    while draws' < draws + MaxTries
      invariant draws <= draws' <= draws + MaxTries
      invariant forall k | draws <= k < draws' ::
        var c := Displaced(active, disc(k)); !InSampleRange(c, minRadius) || grid.HasNearCorrected(c, minRadius)
    {
      var candidate := Displaced(active, disc(draws'));
      draws' := draws' + 1;
      if InSampleRange(candidate, minRadius) && !grid.HasNearCorrected(candidate, minRadius) {
        return Some(candidate), draws';
      }
    }
    found := None;
  }

  /**
   * `poisson_disc_sampling`, with the search corrected to 5 × 5 cells: the
   * seed first, then candidates around the last active point until no
   * active point is left (an active point is retired after `MAX_TRIES`
   * failed candidates).  `seed` is the draw of `sample_seed` and `disc(k)`
   * the k-th draw of `sample_disc`.  Every accepted point but the seed lies
   * within the sampling bounds, no two accepted points are nearer than
   * `min_radius`, and the returned grid holds exactly the accepted points.
   */
  method PoissonDiscSampling(minRadius: real, cellSize: real, seed: Vec2, disc: nat -> Vec2)
    returns (grid: PoissonGrid, ghost accepted: seq<Vec2>)
    requires minRadius > 0.0 && cellSize > 0.0 && 2.0 * cellSize * cellSize == minRadius * minRadius
    requires InSeedRange(seed)
    ensures fresh(grid) && grid.Valid() && grid.cellSize == cellSize
    ensures |accepted| >= 1 && accepted[0] == seed
    ensures forall i | 1 <= i < |accepted| :: InSampleRange(accepted[i], minRadius)
    ensures Separated(accepted, minRadius * minRadius)
    ensures StoredExactly(grid.points, grid.resolution, cellSize, accepted)
    ensures forall k, l | 0 <= k < l < |grid.points| && grid.points[k].Some? && grid.points[l].Some? ::
      Chunk.DistanceSquared(grid.points[k].value, grid.points[l].value) >= minRadius * minRadius
  {
    var active;
    grid, accepted, active := StartSampling(minRadius, cellSize, seed);
    var draws: nat := 0;
    while active != []
      invariant fresh(grid) && Sampling(grid, minRadius, cellSize, seed, accepted, active)
      decreases EmptySlots(grid.points), |active|
    {
      var found;
      found, draws := TryNeighbors(grid, active[|active| - 1], minRadius, disc, draws);
      match found {
        case Some(p) =>
          accepted, active := AcceptCandidate(grid, minRadius, cellSize, seed, accepted, active, p);
        case None =>
          active := active[..|active| - 1];
      }
    }
    GridSeparated(grid.points, grid.resolution, cellSize, minRadius * minRadius, accepted);
  }

  /** The state `poisson_disc_sampling` keeps between iterations: the grid and `SamplerInv`, the seed first. */
  predicate Sampling(grid: PoissonGrid, minRadius: real, cellSize: real, seed: Vec2, accepted: seq<Vec2>, active: seq<Vec2>)
    reads grid
  {
    minRadius > 0.0 && grid.Valid() && grid.cellSize == cellSize &&
    SamplerInv(grid.points, grid.resolution, cellSize, minRadius * minRadius, accepted, active) &&
    |accepted| >= 1 && accepted[0] == seed &&
    forall i | 1 <= i < |accepted| :: InSampleRange(accepted[i], minRadius)
  }

  /** The grid of `cell_size` with the seed stored, the seed the only accepted and active point. */
  method StartSampling(minRadius: real, cellSize: real, seed: Vec2)
    returns (grid: PoissonGrid, ghost accepted: seq<Vec2>, active: seq<Vec2>)
    requires minRadius > 0.0 && cellSize > 0.0 && 2.0 * cellSize * cellSize == minRadius * minRadius
    requires InSeedRange(seed)
    ensures fresh(grid) && Sampling(grid, minRadius, cellSize, seed, accepted, active)
    ensures accepted == [seed] && active == [seed]
  {
    grid := new PoissonGrid(cellSize);
    UnitPointInside(seed, cellSize, grid.resolution);
    AcceptStep(grid.points, grid.resolution, cellSize, minRadius * minRadius, [], [], seed);
    grid.Add(seed);
    accepted := [seed];
    active := [seed];
  }

  /** A candidate passing both tests becomes the last active point and is stored in its empty slot. */
  method AcceptCandidate(grid: PoissonGrid, minRadius: real, cellSize: real, seed: Vec2, ghost accepted: seq<Vec2>, active: seq<Vec2>, p: Vec2)
    returns (ghost accepted': seq<Vec2>, active': seq<Vec2>)
    requires Sampling(grid, minRadius, cellSize, seed, accepted, active)
    requires InSampleRange(p, minRadius) && !grid.HasNearCorrected(p, minRadius)
    modifies grid
    ensures Sampling(grid, minRadius, cellSize, seed, accepted', active')
    ensures accepted' == accepted + [p] && active' == active + [p]
    ensures EmptySlots(grid.points) < old(EmptySlots(grid.points))
  {
    assert InUnitSquare(p);
    UnitPointInside(p, cellSize, grid.resolution);
    AcceptStep(grid.points, grid.resolution, cellSize, minRadius * minRadius, accepted, active, p);
    FillSlot(grid.points, CellIndex(CellPos(p, cellSize), grid.resolution), p);
    grid.Add(p);
    active' := active + [p];
    accepted' := accepted + [p];
    assert forall i | 1 <= i < |accepted'| :: InSampleRange(accepted'[i], minRadius) by {
      forall i | 1 <= i < |accepted'| ensures InSampleRange(accepted'[i], minRadius) {
        if i < |accepted| {
          assert accepted'[i] == accepted[i];
        }
      }
    }
  }
}
