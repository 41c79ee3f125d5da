/**
 * The earlier terrace mesher of crates/rg_terrain/src/mesher.rs.
 *
 * `MeshGenerator` walks the R × R cells of a chunk (R is
 * `CHUNK_RESOLUTION`).  Each cell's four corner heights are read from the
 * chunk's height map or, past its edge, from the neighbouring chunk's map,
 * and quantised; every distinct height is then drawn from the highest down
 * as one marching-squares case into a per-cell `MeshBuilder`, which is moved
 * to the cell's place and appended to the chunk's builder.
 *
 * Here the vertical axis is y: a case point (x, z) of the unit cell is drawn
 * at `Vec3(x, height, z)`.  Positions are reals; indices are `u32` values,
 * kept modulo 2^32 where the source converts or adds them.
 */
module Mesher {
  import opened Grids
  import opened MeshData
  import opened MarchingSquares
  import opened Arith
  import opened ChunkMaps
  import EarlyChunks
  import ChunkUnits

  /** `as u32` and wrapping `u32` addition: the value modulo 2^32. */
  function Wrap32(n: nat): (r: nat)
    ensures r <= U32Max && (n <= U32Max ==> r == n)
  {
    n % (U32Max + 1)
  }

  /** Other's indices shifted by `base`, as `append` moves them. */
  function ShiftIndices(ids: seq<nat>, base: nat): (r: seq<nat>)
    ensures |r| == |ids|
  {
    seq(|ids|, k requires 0 <= k < |ids| => Wrap32(ids[k] + base))
  }

  class MeshBuilder {
    var positions: seq<Vec3>
    var normals: seq<Vec3>
    var indices: seq<nat>

    /** `MeshBuilder::default()`: no vertices and no indices. */
    constructor ()
      ensures positions == [] && normals == [] && indices == []
    {
      positions := [];
      normals := [];
      indices := [];
    }

    /** Every vertex has its normal. */
    predicate Valid() reads this {
      |positions| == |normals|
    }

    /** The index buffer holds whole triangles that name existing vertices. */
    predicate Triangulated() reads this {
      |indices| % 3 == 0 && forall k | 0 <= k < |indices| :: indices[k] < |positions|
    }

    /**
     * `vertex`: one position with an upward normal appended; the index
     * returned is the previous vertex count as a `u32`, so below 2^32
     * vertices it names the new vertex.
     */
    method Vertex(pos: Vec3) returns (index: nat)
      requires Valid()
      modifies this`positions, this`normals
      ensures Valid()
      ensures positions == old(positions) + [pos] && normals == old(normals) + [UnitY]
      ensures index == Wrap32(old(|positions|))
      ensures old(|positions|) <= U32Max ==> index == old(|positions|) && positions[index] == pos
    {
      index := Wrap32(|positions|);
      positions := positions + [pos];
      normals := normals + [UnitY];
    }

    /** `triangle_indices`: the three indices appended in order. */
    method TriangleIndices(a: nat, b: nat, c: nat)
      modifies this`indices
      ensures indices == old(indices) + [a, b, c]
    {
      indices := indices + [a, b, c];
    }

    /**
     * `triangle`: three new vertices and the triangle naming them in order;
     * while the count fits a `u32` a triangulated buffer stays triangulated.
     */
    method Triangle(a: Vec3, b: Vec3, c: Vec3)
      requires Valid()
      modifies this`positions, this`normals, this`indices
      ensures Valid()
      ensures positions == old(positions) + [a, b, c] && normals == old(normals) + [UnitY, UnitY, UnitY]
      ensures var n := old(|positions|); indices == old(indices) + [Wrap32(n), Wrap32(n + 1), Wrap32(n + 2)]
      ensures var n := old(|positions|); n + 2 <= U32Max ==> indices == old(indices) + [n, n + 1, n + 2]
      ensures old(Triangulated()) && old(|positions|) + 2 <= U32Max ==> Triangulated()
    {
      var ai := Vertex(a);
      var bi := Vertex(b);
      var ci := Vertex(c);
      TriangleIndices(ai, bi, ci);
    }

    /**
     * `map_positions`: every position replaced by its image; the counts,
     * normals and indices are untouched.
     */
    method MapPositions(f: Vec3 -> Vec3)
      modifies this`positions
      ensures |positions| == old(|positions|)
      ensures forall k | 0 <= k < |positions| :: positions[k] == f(old(positions[k]))
      ensures Valid() == old(Valid()) && Triangulated() == old(Triangulated())
    {
      ghost var p0 := positions;
      var k := 0;
      while k < |positions|
        invariant k <= |positions| == |p0|
        invariant forall j | 0 <= j < |positions| :: positions[j] == if j < k then f(p0[j]) else p0[j]
      {
        positions := positions[k := f(positions[k])];
        k := k + 1;
      }
    }

    /** `apply_translation`: every position moved by t. */
    method ApplyTranslation(t: Vec3)
      modifies this`positions
      ensures |positions| == old(|positions|)
      ensures forall k | 0 <= k < |positions| :: positions[k] == old(positions[k]).Add(t)
      ensures Valid() == old(Valid()) && Triangulated() == old(Triangulated())
    {
      MapPositions((p: Vec3) => p.Add(t));
    }

    /** `apply_scale`: every position scaled componentwise by s. */
    method ApplyScale(s: Vec3)
      modifies this`positions
      ensures |positions| == old(|positions|)
      ensures forall k | 0 <= k < |positions| :: positions[k] == old(positions[k]).Mul(s)
      ensures Valid() == old(Valid()) && Triangulated() == old(Triangulated())
    {
      MapPositions((p: Vec3) => p.Mul(s));
    }

    /**
     * `append`: other's vertices move to the end of this builder and its
     * indices follow, shifted by the old vertex count; other is left empty.
     * When both were triangulated and the total fits a `u32` index, the
     * result is triangulated.
     */
    method Append(other: MeshBuilder)
      requires other != this && Valid() && other.Valid()
      modifies this, other
      ensures Valid() && other.Valid()
      ensures positions == old(positions) + old(other.positions) && normals == old(normals) + old(other.normals)
      ensures indices == old(indices) + ShiftIndices(old(other.indices), Wrap32(old(|positions|)))
      ensures other.positions == [] && other.normals == [] && other.indices == []
      ensures old(Triangulated()) && old(other.Triangulated()) && |positions| <= U32Max + 1 ==>
        Triangulated() && indices == old(indices) + seq(|old(other.indices)|, k requires 0 <= k < |old(other.indices)| => old(other.indices[k]) + old(|positions|))
    {
      var base := Wrap32(|positions|);
      ghost var n := |positions|;
      ghost var ids0 := indices;
      ghost var other0 := other.indices;
      positions := positions + other.positions;
      other.positions := [];
      normals := normals + other.normals;
      other.normals := [];
      indices := indices + ShiftIndices(other.indices, base);
      other.indices := [];
      if old(Triangulated()) && old(other.Triangulated()) && |positions| <= U32Max + 1 {
        AppendInRange(ids0, other0, n, |positions|);
      }
    }
  }

  /** The shifted indices of a triangulated buffer name vertices of the joined buffer. */
  lemma AppendInRange(ids: seq<nat>, other: seq<nat>, n: nat, total: nat)
    requires |ids| % 3 == 0 && |other| % 3 == 0 && n <= total <= U32Max + 1
    requires forall k | 0 <= k < |ids| :: ids[k] < n
    requires forall k | 0 <= k < |other| :: other[k] < total - n
    ensures ShiftIndices(other, Wrap32(n)) == seq(|other|, k requires 0 <= k < |other| => other[k] + n)
    ensures var r := ids + ShiftIndices(other, Wrap32(n)); |r| % 3 == 0 && forall k | 0 <= k < |r| :: r[k] < total
  {
    if |other| > 0 {
      BoundAboveElement(other, total - n);
    }
  }

  /** A bound every element of a non-empty sequence lies below is positive. */
  lemma BoundAboveElement(s: seq<nat>, bound: int)
    requires |s| > 0 && forall k | 0 <= k < |s| :: s[k] < bound
    ensures bound > 0
  {
    assert s[0] < bound;
  }

  // ---------------------------------------------------------------------
  // Points and triangles of a case

  /** A point of the canonical cell raised to a height (`vec3(a.x, height, a.y)`). */
  function Lift(p: Vec2, h: real): Vec3 {
    Vec3(p.x, h, p.y)
  }

  /** `ms_transform_point`: the flags move the point within the xz plane; its height y is kept. */
  function TransformPoint3(p: Vec3, f: Flags): Vec3 {
    var q := TransformPoint(Vec2(p.x, p.z), f);
    Vec3(q.x, p.y, q.y)
  }

  /**
   * The vertices `ms_triangle_3d` hands to the builder: the three points
   * moved into place, with b and c swapped exactly when flip_x equals flip_y.
   */
  function Emitted(a: Vec3, b: Vec3, c: Vec3, f: Flags): seq<Vec3> {
    var a', b', c' := TransformPoint3(a, f), TransformPoint3(b, f), TransformPoint3(c, f);
    if f.flipX == f.flipY then [a', c', b'] else [a', b', c']
  }

  /** `ms_quad_3d`: the triangles (a, b, c) and (a, c, d). */
  function EmittedQuad(a: Vec3, b: Vec3, c: Vec3, d: Vec3, f: Flags): seq<Vec3> {
    Emitted(a, b, c, f) + Emitted(a, c, d, f)
  }

  /** Twice the signed area of a triangle's shadow on the xz plane. */
  function OrientXZ(a: Vec3, b: Vec3, c: Vec3): real {
    Orient(Vec2(a.x, a.z), Vec2(b.x, b.z), Vec2(c.x, c.z))
  }

  /**
   * Whatever the flags, the triangle drawn is wound against the canonical
   * one in the xz plane: a flip mirrors the winding exactly when the swap
   * does not happen.  (The surface mesher swaps in the opposite case and
   * keeps the winding; there the vertical axis is z instead of y.)
   */
  lemma EmittedWinding(a: Vec3, b: Vec3, c: Vec3, f: Flags)
    ensures var e := Emitted(a, b, c, f); |e| == 3 && OrientXZ(e[0], e[1], e[2]) == -OrientXZ(a, b, c)
  {
    var a2, b2, c2 := Vec2(a.x, a.z), Vec2(b.x, b.z), Vec2(c.x, c.z);
    TransformOrientation(a2, b2, c2, f);
    OrientSwap(TransformPoint(a2, f), TransformPoint(b2, f), TransformPoint(c2, f));
  }

  /**
   * `ms_wall`'s scan for the top of a wall at the transformed point `at`:
   * the lowest vertex of the cell so far strictly above h there, 1000 when
   * there is none.
   */
  function WallTopY(ps: seq<Vec3>, at: Vec2, h: real): (r: real)
    ensures r <= 1000.0 && (h < 1000.0 ==> h < r)
    ensures forall k | 0 <= k < |ps| :: Vec2(ps[k].x, ps[k].z) == at && h < ps[k].y ==> r <= ps[k].y
    ensures r == 1000.0 || exists k | 0 <= k < |ps| :: Vec2(ps[k].x, ps[k].z) == at && h < ps[k].y && ps[k].y == r
  {
    if ps == [] then 1000.0
    else
      var r := WallTopY(ps[..|ps| - 1], at, h);
      var p := ps[|ps| - 1];
      assert forall k | 0 <= k < |ps| - 1 :: ps[..|ps| - 1][k] == ps[k];
      if Vec2(p.x, p.z) == at && p.y > h && p.y < r then p.y else r
  }

  /** The scan loop of `ms_wall` over the vertices of the cell builder. */
  method ScanWallTop(ps: seq<Vec3>, at: Vec2, h: real) returns (top: real)
    ensures top == WallTopY(ps, at, h)
  {
    top := 1000.0;
    var k := 0;
    while k < |ps|
      invariant k <= |ps|
      invariant top == WallTopY(ps[..k], at, h)
    {
      var pos := ps[k];
      if Vec2(pos.x, pos.z) == at && pos.y > h && pos.y < top {
        top := pos.y;
      }
      assert ps[..k + 1][..k] == ps[..k];
      k := k + 1;
    }
    assert ps[..k] == ps;
  }

  // ---------------------------------------------------------------------
  // The case routines as lists of drawing calls

  /** `ms_case_1`: one corner at the level. */
  function MsCase1(upMask: Mask, downMask: Mask): seq<Shape> {
    [Triangle(Vec2(0.0, 0.0), Vec2(0.5, 0.0), Vec2(0.0, 0.5))] +
    if (upMask == 2 && downMask == 12) || (upMask == 12 && downMask == 2) then
      [Triangle(Vec2(0.0, 0.5), Vec2(0.5, 0.0), Vec2(1.0, 0.5))] +
      if upMask == 2 then [Wall(Vec2(0.5, 0.0), Vec2(1.0, 0.5))] else [Wall(Vec2(1.0, 0.5), Vec2(0.0, 0.5))]
    else if (upMask == 8 && downMask == 6) || (upMask == 6 && downMask == 8) then
      [Triangle(Vec2(0.0, 0.5), Vec2(0.5, 0.0), Vec2(0.5, 1.0))] +
      if upMask == 8 then [Wall(Vec2(0.5, 1.0), Vec2(0.0, 0.5))] else [Wall(Vec2(0.5, 0.0), Vec2(0.5, 1.0))]
    else if upMask == 4 && downMask == 10 then
      [Quad(Vec2(0.5, 0.0), Vec2(1.0, 0.5), Vec2(0.5, 1.0), Vec2(0.0, 0.5)),
       Wall(Vec2(1.0, 0.5), Vec2(0.5, 1.0))]
    else
      [Wall(Vec2(0.5, 0.0), Vec2(0.0, 0.5))]
  }

  /** `ms_case_3`: two adjacent corners at the level. */
  function MsCase3(upMask: Mask, downMask: Mask): seq<Shape> {
    [Quad(Vec2(0.0, 0.0), Vec2(1.0, 0.0), Vec2(1.0, 0.5), Vec2(0.0, 0.5))] +
    if (upMask == 4 && downMask == 8) || (upMask == 8 && downMask == 4) then
      [Triangle(Vec2(0.0, 0.5), Vec2(1.0, 0.5), Vec2(0.5, 1.0))] +
      if upMask == 4 then [Wall(Vec2(1.0, 0.5), Vec2(0.5, 1.0))] else [Wall(Vec2(0.5, 1.0), Vec2(0.0, 0.5))]
    else
      [Wall(Vec2(1.0, 0.5), Vec2(0.0, 0.5))]
  }

  /** `ms_case_5`: two opposite corners at the level. */
  function MsCase5(upMask: Mask): seq<Shape> {
    [Triangle(Vec2(0.0, 0.0), Vec2(0.5, 0.0), Vec2(0.0, 0.5)),
     Triangle(Vec2(1.0, 1.0), Vec2(0.5, 1.0), Vec2(1.0, 0.5))] +
    if upMask != 10 then
      [Quad(Vec2(0.5, 0.0), Vec2(1.0, 0.5), Vec2(0.5, 1.0), Vec2(0.0, 0.5))] +
      (if (upMask & 8) != 0 then [Wall(Vec2(0.5, 1.0), Vec2(0.0, 0.5))] else []) +
      (if (upMask & 2) != 0 then [Wall(Vec2(0.5, 0.0), Vec2(1.0, 0.5))] else [])
    else
      [Wall(Vec2(0.5, 0.0), Vec2(0.0, 0.5)), Wall(Vec2(0.5, 1.0), Vec2(1.0, 0.5))]
  }

  /** `ms_case_7`: three corners at the level. */
  function MsCase7(): seq<Shape> {
    [Triangle(Vec2(0.0, 0.0), Vec2(1.0, 0.0), Vec2(1.0, 1.0)),
     Quad(Vec2(0.0, 0.0), Vec2(1.0, 1.0), Vec2(0.5, 1.0), Vec2(0.0, 0.5)),
     Wall(Vec2(0.5, 1.0), Vec2(0.0, 0.5))]
  }

  /** `ms_case_15`: the whole cell at the level. */
  function MsCase15(): seq<Shape> {
    [Quad(Vec2(0.0, 0.0), Vec2(1.0, 0.0), Vec2(1.0, 1.0), Vec2(0.0, 1.0))]
  }

  /** The drawing calls of the canonical case `c` (none for any other mask). */
  function CaseShapes(c: Mask, upMask: Mask, downMask: Mask): (r: seq<Shape>)
    ensures |r| <= 5
  {
    if c == 1 then MsCase1(upMask, downMask)
    else if c == 3 then MsCase3(upMask, downMask)
    else if c == 5 then MsCase5(upMask)
    else if c == 7 then MsCase7()
    else if c == 15 then MsCase15()
    else []
  }

  /** The triangles and quads `MsCase1` may draw. */
  function Case1Floors(): seq<Shape> {
    [Triangle(Vec2(0.0, 0.0), Vec2(0.5, 0.0), Vec2(0.0, 0.5)),
     Triangle(Vec2(0.0, 0.5), Vec2(0.5, 0.0), Vec2(1.0, 0.5)),
     Triangle(Vec2(0.0, 0.5), Vec2(0.5, 0.0), Vec2(0.5, 1.0)),
     Quad(Vec2(0.5, 0.0), Vec2(1.0, 0.5), Vec2(0.5, 1.0), Vec2(0.0, 0.5))]
  }

  lemma Case1FloorsUp()
    ensures AllFaceUp(Case1Floors())
  {
    OrientAt(0.0, 0.0, 0.5, 0.0, 0.0, 0.5);
    OrientAt(0.0, 0.5, 0.5, 0.0, 1.0, 0.5);
    OrientAt(0.0, 0.5, 0.5, 0.0, 0.5, 1.0);
    OrientAt(0.5, 0.0, 1.0, 0.5, 0.5, 1.0);
    OrientAt(0.5, 0.0, 0.5, 1.0, 0.0, 0.5);
  }

  /** Every call `MsCase1` makes is a wall or one of `Case1Floors`. */
  lemma Case1Within(upMask: Mask, downMask: Mask)
    ensures var s := MsCase1(upMask, downMask); forall k | 0 <= k < |s| :: s[k].Wall? || s[k] in Case1Floors()
  {
  }

  lemma Case1FacesUp(upMask: Mask, downMask: Mask)
    ensures AllFaceUp(MsCase1(upMask, downMask))
  {
    Case1FloorsUp();
    Case1Within(upMask, downMask);
    AllFaceUpWithin(MsCase1(upMask, downMask), Case1Floors());
  }

  /** The triangles and quads `MsCase3` may draw. */
  function Case3Floors(): seq<Shape> {
    [Triangle(Vec2(0.0, 0.5), Vec2(1.0, 0.5), Vec2(0.5, 1.0)),
     Quad(Vec2(0.0, 0.0), Vec2(1.0, 0.0), Vec2(1.0, 0.5), Vec2(0.0, 0.5))]
  }

  lemma Case3FloorsUp()
    ensures AllFaceUp(Case3Floors())
  {
    OrientAt(0.0, 0.5, 1.0, 0.5, 0.5, 1.0);
    OrientAt(0.0, 0.0, 1.0, 0.0, 1.0, 0.5);
    OrientAt(0.0, 0.0, 1.0, 0.5, 0.0, 0.5);
  }

  /** Every call `MsCase3` makes is a wall or one of `Case3Floors`. */
  lemma Case3Within(upMask: Mask, downMask: Mask)
    ensures var s := MsCase3(upMask, downMask); forall k | 0 <= k < |s| :: s[k].Wall? || s[k] in Case3Floors()
  {
  }

  lemma Case3FacesUp(upMask: Mask, downMask: Mask)
    ensures AllFaceUp(MsCase3(upMask, downMask))
  {
    Case3FloorsUp();
    Case3Within(upMask, downMask);
    AllFaceUpWithin(MsCase3(upMask, downMask), Case3Floors());
  }

  /** The triangles and quads `MsCase5` may draw. */
  function Case5Floors(): seq<Shape> {
    [Triangle(Vec2(0.0, 0.0), Vec2(0.5, 0.0), Vec2(0.0, 0.5)),
     Triangle(Vec2(1.0, 1.0), Vec2(0.5, 1.0), Vec2(1.0, 0.5)),
     Quad(Vec2(0.5, 0.0), Vec2(1.0, 0.5), Vec2(0.5, 1.0), Vec2(0.0, 0.5))]
  }

  lemma Case5FloorsUp()
    ensures AllFaceUp(Case5Floors())
  {
    OrientAt(0.0, 0.0, 0.5, 0.0, 0.0, 0.5);
    OrientAt(1.0, 1.0, 0.5, 1.0, 1.0, 0.5);
    OrientAt(0.5, 0.0, 1.0, 0.5, 0.5, 1.0);
    OrientAt(0.5, 0.0, 0.5, 1.0, 0.0, 0.5);
  }

  /** Every call `MsCase5` makes is a wall or one of `Case5Floors`. */
  lemma Case5Within(upMask: Mask)
    ensures var s := MsCase5(upMask); forall k | 0 <= k < |s| :: s[k].Wall? || s[k] in Case5Floors()
  {
  }

  lemma Case5FacesUp(upMask: Mask)
    ensures AllFaceUp(MsCase5(upMask))
  {
    Case5FloorsUp();
    Case5Within(upMask);
    AllFaceUpWithin(MsCase5(upMask), Case5Floors());
  }

  /** The triangles and quads `MsCase7` may draw. */
  function Case7Floors(): seq<Shape> {
    [Triangle(Vec2(0.0, 0.0), Vec2(1.0, 0.0), Vec2(1.0, 1.0)),
     Quad(Vec2(0.0, 0.0), Vec2(1.0, 1.0), Vec2(0.5, 1.0), Vec2(0.0, 0.5))]
  }

  lemma Case7FloorsUp()
    ensures AllFaceUp(Case7Floors())
  {
    OrientAt(0.0, 0.0, 1.0, 0.0, 1.0, 1.0);
    OrientAt(0.0, 0.0, 1.0, 1.0, 0.5, 1.0);
    OrientAt(0.0, 0.0, 0.5, 1.0, 0.0, 0.5);
  }

  /** Every call `MsCase7` makes is a wall or one of `Case7Floors`. */
  lemma Case7Within()
    ensures var s := MsCase7(); forall k | 0 <= k < |s| :: s[k].Wall? || s[k] in Case7Floors()
  {
  }

  lemma Case7FacesUp()
    ensures AllFaceUp(MsCase7())
  {
    Case7FloorsUp();
    Case7Within();
    AllFaceUpWithin(MsCase7(), Case7Floors());
  }

  /** The triangles and quads `MsCase15` may draw. */
  function Case15Floors(): seq<Shape> {
    [Quad(Vec2(0.0, 0.0), Vec2(1.0, 0.0), Vec2(1.0, 1.0), Vec2(0.0, 1.0))]
  }

  lemma Case15FloorsUp()
    ensures AllFaceUp(Case15Floors())
  {
    OrientAt(0.0, 0.0, 1.0, 0.0, 1.0, 1.0);
    OrientAt(0.0, 0.0, 1.0, 1.0, 0.0, 1.0);
  }

  /** Every call `MsCase15` makes is a wall or one of `Case15Floors`. */
  lemma Case15Within()
    ensures var s := MsCase15(); forall k | 0 <= k < |s| :: s[k].Wall? || s[k] in Case15Floors()
  {
  }

  lemma Case15FacesUp()
    ensures AllFaceUp(MsCase15())
  {
    Case15FloorsUp();
    Case15Within();
    AllFaceUpWithin(MsCase15(), Case15Floors());
  }


  /**
   * Every triangle and quad of the canonical cases is wound positively in
   * the canonical cell, so by `EmittedWinding` every floor triangle the
   * mesher draws is wound negatively in the xz plane, whatever the flags.
   */
  lemma CasesFaceUp(c: Mask, upMask: Mask, downMask: Mask)
    ensures AllFaceUp(CaseShapes(c, upMask, downMask))
  {
    if c == 1 {
      Case1FacesUp(upMask, downMask);
    } else if c == 3 {
      Case3FacesUp(upMask, downMask);
    } else if c == 5 {
      Case5FacesUp(upMask);
    } else if c == 7 {
      Case7FacesUp();
    } else if c == 15 {
      Case15FacesUp();
    }
  }

  /** The vertices one drawing call appends: three per triangle, six per quad, six per wall when a corner lies above. */
  function ShapeVertices(s: Shape, upMask: Mask): (n: nat)
    ensures n <= ShapeBudget
  {
    match s
    case Triangle(_, _, _) => 3
    case Quad(_, _, _, _) => 6
    case Wall(_, _) => if upMask == 0 then 0 else 6
  }

  /** The vertices a case routine appends, call by call. */
  function ShapesVertices(shapes: seq<Shape>, upMask: Mask): nat {
    if shapes == [] then 0
    else ShapesVertices(shapes[..|shapes| - 1], upMask) + ShapeVertices(shapes[|shapes| - 1], upMask)
  }

  /** Vertices a drawing call may append: a triangle three, a quad or a wall six. */
  const ShapeBudget: nat := 6
  /** Vertices one `marching_squares` call may append: at most five calls. */
  const LevelBudget: nat := 5 * ShapeBudget
  /** Vertices one cell may append: at most four levels. */
  const CellBudget: nat := 4 * LevelBudget

  /** Old vertices and indices are kept and the builder stays well formed. */
  twostate predicate Grew(b: MeshBuilder)
    reads b
  {
    old(b.positions) <= b.positions && old(b.normals) <= b.normals && old(b.indices) <= b.indices &&
    b.Valid() && b.Triangulated()
  }

  /** Inside the chunk: `inside_chunk`, with `CHUNK_RESOLUTION` as res. */
  predicate InsideChunk(pos: IVec2, res: nat) {
    0 <= pos.x < res && 0 <= pos.y < res
  }

  function ToUVec2(pos: IVec2): UVec2
    requires pos.x >= 0 && pos.y >= 0
  {
    UVec2(pos.x, pos.y)
  }

  /** The position in the neighbour map of direction i: `pos - dir * R`. */
  function NeighborPos(pos: IVec2, i: nat, res: nat): IVec2
    requires i < 8
  {
    pos.Minus(EarlyChunks.NeighborDirs[i].Scale(res))
  }

  /** At most one neighbour map holds a position outside the chunk. */
  lemma NeighborPosUnique(pos: IVec2, i: nat, j: nat, res: nat)
    requires i < 8 && j < 8 && res > 0
    requires InsideChunk(NeighborPos(pos, i, res), res) && InsideChunk(NeighborPos(pos, j, res), res)
    ensures i == j
  {
    EarlyChunks.NeighborDirsExact();
    var di, dj := EarlyChunks.NeighborDirs[i], EarlyChunks.NeighborDirs[j];
    var p, q := NeighborPos(pos, i, res), NeighborPos(pos, j, res);
    assert p.x - q.x == (dj.x - di.x) * res;
    assert p.y - q.y == (dj.y - di.y) * res;
    MulBoundedIsZero(dj.x - di.x, res);
    MulBoundedIsZero(dj.y - di.y, res);
    assert di == dj;
  }

  /**
   * Every position within one chunk of this one, and outside it, lies in
   * exactly one neighbour map: the direction picks, per axis, the side the
   * position is on.
   */
  lemma NeighborPosExists(pos: IVec2, res: nat) returns (i: nat)
    requires res > 0 && -(res as int) <= pos.x < 2 * res && -(res as int) <= pos.y < 2 * res && !InsideChunk(pos, res)
    ensures i < 8 && InsideChunk(NeighborPos(pos, i, res), res)
  {
    var d := IVec2(if pos.x < 0 then -1 else if pos.x < res then 0 else 1,
                   if pos.y < 0 then -1 else if pos.y < res then 0 else 1);
    EarlyChunks.NeighborDirsExact();
    assert EarlyChunks.IsNeighborOffset(d);
    i :| 0 <= i < 8 && EarlyChunks.NeighborDirs[i] == d;
    assert NeighborPos(pos, i, res) == IVec2(pos.x - d.x * res, pos.y - d.y * res);
  }

  class MeshGenerator {
    /** `CHUNK_RESOLUTION`. */
    const res: nat
    const builder: MeshBuilder
    const cellBuilder: MeshBuilder
    const heightStep: real
    /** The height maps of the eight neighbours, in `NEIGHBOR_DIRS` order. */
    const neighborHeightmaps: seq<ChunkMap<real>>
    const heightmap: ChunkMap<real>
    var height: real
    var upHeight: real
    var mask: Mask
    var upMask: Mask
    var downMask: Mask
    var flipX: bool
    var flipY: bool
    var rotate: bool

    /** `MeshGenerator::new`: two empty builders, a height step of 0.1 and everything else zero. */
    constructor (res: nat, neighborHeightmaps: seq<ChunkMap<real>>, heightmap: ChunkMap<real>)
      ensures this.res == res && this.neighborHeightmaps == neighborHeightmaps && this.heightmap == heightmap
      ensures fresh(builder) && fresh(cellBuilder) && builder != cellBuilder
      ensures builder.positions == [] && builder.normals == [] && builder.indices == []
      ensures cellBuilder.positions == [] && cellBuilder.normals == [] && cellBuilder.indices == []
      ensures heightStep == 0.1 && height == 0.0 && upHeight == 0.0
      ensures mask == 0 && upMask == 0 && downMask == 0 && !flipX && !flipY && !rotate
    {
      this.res := res;
      builder := new MeshBuilder();
      cellBuilder := new MeshBuilder();
      heightStep := 0.1;
      this.neighborHeightmaps := neighborHeightmaps;
      this.heightmap := heightmap;
      height := 0.0;
      upHeight := 0.0;
      mask := 0;
      upMask := 0;
      downMask := 0;
      flipX := false;
      flipY := false;
      rotate := false;
    }

    function Maps(): set<ChunkMap<real>> {
      {heightmap} + set i | 0 <= i < |neighborHeightmaps| :: neighborHeightmaps[i]
    }

    /** The chunk's map and its eight neighbours' maps, all of resolution res. */
    predicate HeightmapsOk() reads Maps() {
      |neighborHeightmaps| == 8 && heightmap.Valid() && heightmap.res == res &&
      forall i | 0 <= i < 8 :: neighborHeightmaps[i].Valid() && neighborHeightmaps[i].res == res
    }

    function CurrentFlags(): Flags reads this {
      Flags(flipX, flipY, rotate)
    }

    /**
     * The loop of `get_height` from direction i on: the first neighbour map
     * that holds the position answers, 0 when none does.
     */
    function NeighborHeight(pos: IVec2, i: nat): (h: real)
      reads Maps()
      requires HeightmapsOk() && i <= 8
      ensures (forall j | i <= j < 8 :: !InsideChunk(NeighborPos(pos, j, res), res)) ==> h == 0.0
      ensures forall j | i <= j < 8 && InsideChunk(NeighborPos(pos, j, res), res) &&
          (forall l | i <= l < j :: !InsideChunk(NeighborPos(pos, l, res), res)) ::
        h == neighborHeightmaps[j].Get(ToUVec2(NeighborPos(pos, j, res)))
      decreases 8 - i
    {
      if i == 8 then 0.0
      else
        var p := NeighborPos(pos, i, res);
        assert neighborHeightmaps[i] in Maps();
        if InsideChunk(p, res) then neighborHeightmaps[i].Get(ToUVec2(p))
        else NeighborHeight(pos, i + 1)
    }

    /** `get_height`: the chunk's own map inside the chunk, else the neighbour search. */
    function GetHeight(pos: IVec2): (h: real)
      reads Maps()
      requires HeightmapsOk()
      ensures InsideChunk(pos, res) ==> h == heightmap.Get(ToUVec2(pos))
      ensures !InsideChunk(pos, res) && (forall j | 0 <= j < 8 :: !InsideChunk(NeighborPos(pos, j, res), res)) ==> h == 0.0
    {
      if InsideChunk(pos, res) then heightmap.Get(ToUVec2(pos)) else NeighborHeight(pos, 0)
    }

    /**
     * Just past the chunk's edge the order of `NEIGHBOR_DIRS` does not
     * matter: the one neighbour map holding the position answers.
     */
    lemma BorderHeight(pos: IVec2, i: nat)
      requires HeightmapsOk() && res > 0 && i < 8
      requires !InsideChunk(pos, res) && InsideChunk(NeighborPos(pos, i, res), res)
      ensures GetHeight(pos) == neighborHeightmaps[i].Get(ToUVec2(NeighborPos(pos, i, res)))
    {
      forall l | 0 <= l < i ensures !InsideChunk(NeighborPos(pos, l, res), res) {
        if InsideChunk(NeighborPos(pos, l, res), res) {
          NeighborPosUnique(pos, l, i, res);
        }
      }
    }

    /** `get_quantized_height`. */
    function QuantizedHeight(pos: IVec2): (r: real)
      reads Maps()
      requires HeightmapsOk() && heightStep > 0.0
      ensures r <= GetHeight(pos) < r + heightStep
    {
      Quantize(GetHeight(pos), heightStep)
    }

    /**
     * The corners of cell pos: top-left, top-right, bottom-right, bottom-left,
     * each the height at that grid point rounded down to the height step.
     */
    function Corners(pos: IVec2): (r: seq<real>)
      reads Maps()
      requires HeightmapsOk() && heightStep > 0.0
      ensures |r| == 4
      ensures r[0] <= GetHeight(pos) < r[0] + heightStep
      ensures r[1] <= GetHeight(pos.Plus(IVec2(1, 0))) < r[1] + heightStep
      ensures r[2] <= GetHeight(pos.Plus(IVec2(1, 1))) < r[2] + heightStep
      ensures r[3] <= GetHeight(pos.Plus(IVec2(0, 1))) < r[3] + heightStep
    {
      [QuantizedHeight(pos), QuantizedHeight(pos.Plus(IVec2(1, 0))),
       QuantizedHeight(pos.Plus(IVec2(1, 1))), QuantizedHeight(pos.Plus(IVec2(0, 1)))]
    }

    /**
     * `ms_triangle_3d`: the points moved into place and b, c swapped when
     * flip_x equals flip_y, drawn as one triangle of the cell builder.
     */
    method MsTriangle3d(a: Vec3, b: Vec3, c: Vec3)
      requires cellBuilder.Valid() && cellBuilder.Triangulated() && |cellBuilder.positions| + 3 <= U32Max
      modifies cellBuilder
      ensures Grew(cellBuilder)
      ensures cellBuilder.positions == old(cellBuilder.positions) + Emitted(a, b, c, CurrentFlags())
      ensures var n := old(|cellBuilder.positions|); cellBuilder.indices == old(cellBuilder.indices) + [n, n + 1, n + 2]
    {
      var a' := TransformPoint3(a, CurrentFlags());
      var b' := TransformPoint3(b, CurrentFlags());
      var c' := TransformPoint3(c, CurrentFlags());
      if !(flipX != flipY) {
        b', c' := c', b';
      }
      cellBuilder.Triangle(a', b', c');
    }

    /** `ms_quad_3d`: the triangles (a, b, c) and (a, c, d). */
    method MsQuad3d(a: Vec3, b: Vec3, c: Vec3, d: Vec3)
      requires cellBuilder.Valid() && cellBuilder.Triangulated() && |cellBuilder.positions| + 6 <= U32Max
      modifies cellBuilder
      ensures Grew(cellBuilder)
      ensures cellBuilder.positions == old(cellBuilder.positions) + EmittedQuad(a, b, c, d, CurrentFlags())
      ensures var n := old(|cellBuilder.positions|);
        cellBuilder.indices == old(cellBuilder.indices) + [n, n + 1, n + 2, n + 3, n + 4, n + 5]
    {
      MsTriangle3d(a, b, c);
      MsTriangle3d(a, c, d);
    }

    /**
     * `ms_wall`: nothing when no corner lies above the level; otherwise a
     * vertical quad under b and a from the level up to the lowest vertex of
     * the cell above the level at a's final place (1000 when there is none).
     */
    method MsWall(a: Vec2, b: Vec2)
      requires cellBuilder.Valid() && cellBuilder.Triangulated() && |cellBuilder.positions| + 6 <= U32Max
      modifies cellBuilder
      ensures Grew(cellBuilder)
      ensures upMask == 0 ==> cellBuilder.positions == old(cellBuilder.positions) && cellBuilder.indices == old(cellBuilder.indices)
      ensures upMask != 0 ==>
        var top := WallTopY(old(cellBuilder.positions), TransformPoint(a, CurrentFlags()), height);
        cellBuilder.positions == old(cellBuilder.positions) +
          EmittedQuad(Lift(b, height), Lift(a, height), Lift(a, top), Lift(b, top), CurrentFlags())
    {
      if upMask == 0 {
        return;
      }
      var aTr := TransformPoint3(Lift(a, height), CurrentFlags());
      var top := ScanWallTop(cellBuilder.positions, Vec2(aTr.x, aTr.z), height);
      MsQuad3d(Lift(b, height), Lift(a, height), Lift(a, top), Lift(b, top));
    }

    /** One drawing call at the level's height (`ms_triangle`, `ms_quad` or `ms_wall`). */
    method DrawShape(s: Shape)
      requires cellBuilder.Valid() && cellBuilder.Triangulated() && |cellBuilder.positions| + ShapeBudget <= U32Max
      modifies cellBuilder
      ensures Grew(cellBuilder) && |cellBuilder.positions| <= old(|cellBuilder.positions|) + ShapeBudget
      ensures |cellBuilder.positions| == old(|cellBuilder.positions|) + ShapeVertices(s, upMask)
      ensures s.Triangle? ==>
        cellBuilder.positions == old(cellBuilder.positions) + Emitted(Lift(s.a, height), Lift(s.b, height), Lift(s.c, height), CurrentFlags())
      ensures s.Quad? ==>
        cellBuilder.positions == old(cellBuilder.positions) + EmittedQuad(Lift(s.a, height), Lift(s.b, height), Lift(s.c, height), Lift(s.d, height), CurrentFlags())
    {
      match s
      case Triangle(a, b, c) =>
        MsTriangle3d(Lift(a, height), Lift(b, height), Lift(c, height));
      case Quad(a, b, c, d) =>
        MsQuad3d(Lift(a, height), Lift(b, height), Lift(c, height), Lift(d, height));
      case Wall(a, b) =>
        MsWall(a, b);
    }

    /** A case routine: its drawing calls in order. */
    method DrawShapes(shapes: seq<Shape>)
      requires cellBuilder.Valid() && cellBuilder.Triangulated()
      requires |cellBuilder.positions| + ShapeBudget * |shapes| <= U32Max
      modifies cellBuilder
      ensures Grew(cellBuilder) && |cellBuilder.positions| <= old(|cellBuilder.positions|) + ShapeBudget * |shapes|
      ensures |cellBuilder.positions| == old(|cellBuilder.positions|) + ShapesVertices(shapes, upMask)
    {
      var k := 0;
      while k < |shapes|
        invariant k <= |shapes|
        invariant Grew(cellBuilder) && |cellBuilder.positions| <= old(|cellBuilder.positions|) + ShapeBudget * k
        invariant |cellBuilder.positions| == old(|cellBuilder.positions|) + ShapesVertices(shapes[..k], upMask)
      {
        assert shapes[..k + 1][..k] == shapes[..k];
        DrawShape(shapes[k]);
        k := k + 1;
      }
      assert shapes[..k] == shapes;
    }

    /** `ms_transform_masks`: the three masks permuted by the current flags. */
    method TransformMasks()
      modifies this`mask, this`upMask, this`downMask
      ensures mask == Transform(old(mask), CurrentFlags())
      ensures upMask == Transform(old(upMask), CurrentFlags()) && downMask == Transform(old(downMask), CurrentFlags())
      ensures Partition(old(mask), old(upMask), old(downMask)) ==> Partition(mask, upMask, downMask)
    {
      if Partition(mask, upMask, downMask) {
        TransformKeepsPartition(mask, upMask, downMask, CurrentFlags());
      }
      mask := Transform(mask, CurrentFlags());
      upMask := Transform(upMask, CurrentFlags());
      downMask := Transform(downMask, CurrentFlags());
    }

    /**
     * The choice of case in `marching_squares` for a mask from 1 to 15: the
     * flags of its case are set and the masks transformed, which turns the
     * mask into that case's canonical mask.
     */
    method SelectCase()
      requires 0 < mask < 16
      modifies this`mask, this`upMask, this`downMask, this`flipX, this`flipY, this`rotate
      ensures CurrentFlags() == FlagsFor(old(mask)) && mask == CaseFor(old(mask)) && IsCanonical(mask)
      ensures upMask == Transform(old(upMask), CurrentFlags()) && downMask == Transform(old(downMask), CurrentFlags())
      ensures Partition(old(mask), old(upMask), old(downMask)) ==> Partition(mask, upMask, downMask)
    {
      CanonicalCases(mask);
      var f := FlagsFor(mask);
      flipX, flipY, rotate := f.flipX, f.flipY, f.rotate;
      TransformMasks();
    }

    /**
     * `marching_squares`: the flags are cleared; mask 0 (or any value
     * above 15) draws nothing.  Otherwise the flags of the mask's case are
     * set, the masks are transformed into the canonical case and its
     * routine draws, within the level budget.
     */
    method MarchingSquares()
      requires cellBuilder.Valid() && cellBuilder.Triangulated() && |cellBuilder.positions| + LevelBudget <= U32Max
      modifies this`mask, this`upMask, this`downMask, this`flipX, this`flipY, this`rotate, cellBuilder
      ensures Grew(cellBuilder) && |cellBuilder.positions| <= old(|cellBuilder.positions|) + LevelBudget
      ensures (old(mask) == 0 || old(mask) > 15) ==>
        CurrentFlags() == Flags(false, false, false) && mask == old(mask) && upMask == old(upMask) && downMask == old(downMask) &&
        cellBuilder.positions == old(cellBuilder.positions) && cellBuilder.indices == old(cellBuilder.indices)
      ensures 0 < old(mask) < 16 ==>
        CurrentFlags() == FlagsFor(old(mask)) && mask == CaseFor(old(mask)) && IsCanonical(mask) &&
        upMask == Transform(old(upMask), CurrentFlags()) && downMask == Transform(old(downMask), CurrentFlags())
      ensures Partition(old(mask), old(upMask), old(downMask)) ==> Partition(mask, upMask, downMask)
    {
      flipX, flipY, rotate := false, false, false;
      if mask == 0 || mask > 15 {
        return;
      }
      SelectCase();
      var shapes := CaseShapes(mask, upMask, downMask);
      MulMono(|shapes|, 5, ShapeBudget);
      DrawShapes(shapes);
    }

    /** One turn of the level loop of `generate_cell`: the level's masks and heights set and the level drawn. */
    method DrawCornerLevel(corners: seq<real>, h: real, up: real)
      requires |corners| == 4 && h in corners
      requires cellBuilder.Valid() && cellBuilder.Triangulated() && |cellBuilder.positions| + LevelBudget <= U32Max
      modifies this`height, this`upHeight, this`mask, this`upMask, this`downMask, this`flipX, this`flipY, this`rotate, cellBuilder
      ensures Grew(cellBuilder) && |cellBuilder.positions| <= old(|cellBuilder.positions|) + LevelBudget
      ensures height == h && upHeight == up
      ensures IsCanonical(mask) && Partition(mask, upMask, downMask)
      ensures CurrentFlags() == FlagsFor(LevelMask(corners, h)) && mask == CaseFor(LevelMask(corners, h))
    {
      LevelMasksPartition(corners, h);
      mask, upMask, downMask := LevelMask(corners, h), UpMask(corners, h), DownMask(corners, h);
      height, upHeight := h, up;
      MarchingSquares();
    }

    /** The level loop of `generate_cell` over the sorted corner heights. */
    method DrawLevels(corners: seq<real>, heights: seq<real>) returns (ghost levels: seq<real>, ghost ups: seq<real>, ghost last: real)
      requires |corners| == 4 && |heights| == 4 && Descending(heights) && multiset(heights) == multiset(corners)
      requires cellBuilder.Valid() && cellBuilder.Triangulated() && |cellBuilder.positions| + CellBudget <= U32Max
      modifies this`height, this`upHeight, this`mask, this`upMask, this`downMask, this`flipX, this`flipY, this`rotate, cellBuilder
      ensures Grew(cellBuilder) && |cellBuilder.positions| <= old(|cellBuilder.positions|) + CellBudget
      ensures VisitedUpTo(heights, |heights|, levels, ups, last)
    {
      var i := 0;
      var up := heights[0] + 100.0;
      levels, ups := [], [];
      VisitedStart(heights);
      while i < |heights|
        invariant i <= |heights| && |levels| <= i && VisitedUpTo(heights, i, levels, ups, up)
        invariant Grew(cellBuilder) && |cellBuilder.positions| <= old(|cellBuilder.positions|) + |levels| * LevelBudget
      {
        var h, next := NextLevel(heights, i);
        VisitedStep(heights, i, next, h, levels, ups, up);
        assert h in multiset(heights);
        DrawCornerLevel(corners, h, up);
        levels, ups := levels + [h], ups + [up];
        up := h;
        i := next;
      }
      last := up;
    }

    /**
     * `generate_cell`: the quantised corner heights of cell pos, sorted
     * highest first; each distinct height is drawn once as a level, top
     * down, with the height of the level above.  `levels` and `ups` are the
     * heights and up heights of the levels drawn.
     */
    method GenerateCell(pos: IVec2) returns (ghost levels: seq<real>, ghost ups: seq<real>)
      requires HeightmapsOk() && heightStep > 0.0
      requires cellBuilder.Valid() && cellBuilder.Triangulated() && |cellBuilder.positions| + CellBudget <= U32Max
      modifies this`height, this`upHeight, this`mask, this`upMask, this`downMask, this`flipX, this`flipY, this`rotate, cellBuilder
      ensures Grew(cellBuilder) && |cellBuilder.positions| <= old(|cellBuilder.positions|) + CellBudget
      ensures LevelsOf(old(Corners(pos)), levels, ups)
    {
      var corners := Corners(pos);
      var heights := SortDescending(corners);
      assert |heights| == |multiset(heights)| == 4;
      ghost var last;
      levels, ups, last := DrawLevels(corners, heights);
      VisitedEnd(corners, heights, levels, ups, last);
    }

    /**
     * The body of the cell loop of `generate`: the cell is drawn into the
     * empty cell builder, moved to (x, 0, y) and appended to the chunk's
     * builder, which stays triangulated.
     */
    method GenerateOne(x: nat, y: nat)
      requires HeightmapsOk() && heightStep > 0.0 && builder != cellBuilder
      requires builder.Valid() && builder.Triangulated() && |builder.positions| + CellBudget <= U32Max
      requires cellBuilder.positions == [] && cellBuilder.normals == [] && cellBuilder.indices == []
      modifies this`height, this`upHeight, this`mask, this`upMask, this`downMask, this`flipX, this`flipY, this`rotate
      modifies builder, cellBuilder
      ensures Grew(builder) && |builder.positions| <= old(|builder.positions|) + CellBudget
      ensures cellBuilder.positions == [] && cellBuilder.normals == [] && cellBuilder.indices == []
    {
      ghost var _, _ := GenerateCell(IVec2(x, y));
      cellBuilder.ApplyTranslation(Vec3(x as real, 0.0, y as real));
      builder.Append(cellBuilder);
    }

    /** The inner loop of `generate`: the cells (x, 0) to (x, R - 1). */
    method GenerateColumn(x: nat)
      requires HeightmapsOk() && heightStep > 0.0 && builder != cellBuilder
      requires builder.Valid() && builder.Triangulated() && |builder.positions| + res * CellBudget <= U32Max
      requires cellBuilder.positions == [] && cellBuilder.normals == [] && cellBuilder.indices == []
      modifies this`height, this`upHeight, this`mask, this`upMask, this`downMask, this`flipX, this`flipY, this`rotate
      modifies builder, cellBuilder
      ensures Grew(builder) && |builder.positions| <= old(|builder.positions|) + res * CellBudget
      ensures cellBuilder.positions == [] && cellBuilder.normals == [] && cellBuilder.indices == []
    {
      var y := 0;
      while y < res
        invariant y <= res
        invariant Grew(builder) && |builder.positions| <= old(|builder.positions|) + y * CellBudget
        invariant cellBuilder.positions == [] && cellBuilder.normals == [] && cellBuilder.indices == []
      {
        MulMono(y + 1, res, CellBudget);
        GenerateOne(x, y);
        y := y + 1;
      }
    }

    /**
     * `generate`: every cell of the chunk drawn and appended, then the
     * positions scaled from cells to world units (`CHUNK_SIZE / R`
     * horizontally).  The chunk's builder ends triangulated, with every
     * normal and index in place, and at most R² cell budgets of vertices.
     */
    method Generate()
      requires HeightmapsOk() && heightStep > 0.0 && builder != cellBuilder && res > 0
      requires builder.positions == [] && builder.normals == [] && builder.indices == []
      requires cellBuilder.positions == [] && cellBuilder.normals == [] && cellBuilder.indices == []
      requires res * res * CellBudget <= U32Max
      modifies this`height, this`upHeight, this`mask, this`upMask, this`downMask, this`flipX, this`flipY, this`rotate
      modifies builder, cellBuilder
      ensures builder.Valid() && builder.Triangulated() && |builder.positions| <= res * res * CellBudget
      ensures cellBuilder.positions == [] && cellBuilder.normals == [] && cellBuilder.indices == []
    {
      var x := 0;
      while x < res
        invariant x <= res
        invariant builder.Valid() && builder.Triangulated() && |builder.positions| <= x * (res * CellBudget)
        invariant cellBuilder.positions == [] && cellBuilder.normals == [] && cellBuilder.indices == []
      {
        MulMono(x + 1, res, res * CellBudget);
        assert res * (res * CellBudget) == res * res * CellBudget;
        GenerateColumn(x);
        x := x + 1;
      }
      assert res * (res * CellBudget) == res * res * CellBudget;
      var scale := ChunkUnits.ChunkSize / res as real;
      builder.ApplyScale(Vec3(scale, 1.0, scale));
    }
  }
}
