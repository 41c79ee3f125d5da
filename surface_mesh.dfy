/**
 * The chunk surface mesher of crates/rg_terrain/src/surface/mesh.rs.
 *
 * `MeshGenerator` walks the 32 × 32 tiles of a chunk.  For each tile it
 * quantises the four corner heights, visits each distinct height from the
 * highest down and draws one marching-squares case per level, appending to
 * the position, normal, colour and index buffers.  Post-passes then merge
 * flat blocks into single quads, drop the rejected indices, remove
 * degenerate triangles and share identical vertices.
 *
 * Positions are reals.  The buffers are sequences the methods reassign; the
 * `Grid`s indexed by tile (`cell_indices`, `cell_vertices`, `cell_walls`) are
 * maps whose missing entries stand for the initial `[0, 0]` or empty list.
 */
module SurfaceMesh {
  import opened Grids
  import opened MeshData
  import opened MarchingSquares
  import opened Arith
  import opened Wrappers
  import opened MeshPasses
  import opened ChunkUnits

  const HeightStep: real := 0.25

  /** Vertices one `marching_squares` call may append (the largest case draws 56). */
  const LevelBudget: nat := 64
  /** Vertices one tile may append: at most four levels. */
  const CellBudget: nat := 4 * LevelBudget
  /** Vertices one row of 32 tiles may append. */
  const RowBudget: nat := ChunkTiles * CellBudget

  /** A `[start, end)` range of a buffer, the `[usize; 2]` of the per-tile grids. */
  datatype Span = Span(start: nat, end: nat)

  function SpanAt(m: map<IVec2, Span>, c: IVec2): Span {
    if c in m then m[c] else Span(0, 0)
  }

  function WallsAt(m: map<IVec2, seq<nat>>, c: IVec2): seq<nat> {
    if c in m then m[c] else []
  }

  predicate InChunk(c: IVec2) {
    0 <= c.x < ChunkTiles as int && 0 <= c.y < ChunkTiles as int
  }

  /** A vertex of the canonical cell moved as `ms_transform_point` moves it: the height is kept. */
  function Place(p: Vec3, f: Flags): Vec3 {
    TransformPoint(p.XY(), f).Extend(p.z)
  }

  function SwapBC(t: Tri): Tri { Tri(t.a, t.c, t.b) }

  /**
   * `ms_wall`'s scan for the top of a wall at the transformed point `at`:
   * the lowest vertex of the tile above `h` there, 1000 when there is none.
   */
  function WallTop(ps: seq<Vec3>, at: Vec2, h: real): (r: real)
    ensures r <= 1000.0 && (h < 1000.0 ==> h < r)
    ensures forall k | 0 <= k < |ps| :: ps[k].XY() == at && h < ps[k].z ==> r <= ps[k].z
    ensures r == 1000.0 || exists k | 0 <= k < |ps| :: ps[k].XY() == at && h < ps[k].z && ps[k].z == r
  {
    if ps == [] then 1000.0
    else
      var r := WallTop(ps[..|ps| - 1], at, h);
      var p := ps[|ps| - 1];
      assert forall k | 0 <= k < |ps| - 1 :: ps[..|ps| - 1][k] == ps[k];
      if p.XY() == at && p.z > h && p.z < r then p.z else r
  }

  /**
   * The per-tile span tables list the same tiles and stay inside the
   * buffers; index spans hold whole triangles.
   */
  predicate TablesOk(vs: map<IVec2, Span>, ix: map<IVec2, Span>, n: nat, m: nat) {
    vs.Keys == ix.Keys &&
    (forall c | c in vs :: vs[c].start <= vs[c].end <= n) &&
    (forall c | c in ix :: ix[c].start <= ix[c].end <= m && ix[c].start % 3 == 0 && ix[c].end % 3 == 0)
  }

  /** The triangles of each tile name only the tile's own vertices. */
  predicate OwnVertices(vs: map<IVec2, Span>, ix: map<IVec2, Span>, ids: seq<nat>) {
    forall c | c in ix && c in vs ::
      ix[c].end <= |ids| && forall k | ix[c].start <= k < ix[c].end :: vs[c].start <= ids[k] < vs[c].end
  }

  /** Tile c comes before tile p in the row-major walk of `generate_cells`. */
  predicate Before(c: IVec2, p: IVec2) {
    c.y < p.y || (c.y == p.y && c.x < p.x)
  }

  /** Every tile of the chunk has its four corners on the height map. */
  ghost predicate CoversChunk(g: GridValue<real>) {
    forall c | InChunk(c) :: CornersInside(g, c)
  }

  predicate WallsOk(m: map<IVec2, seq<nat>>, n: nat) {
    forall c | c in m :: forall k | 0 <= k < |m[c]| :: m[c][k] + 4 <= n
  }

  /** The position, normal, colour and index buffers the generator appends to. */
  datatype Buffers = Buffers(positions: seq<Vec3>, normals: seq<Vec3>, colors: seq<Vec4>, indices: seq<nat>) {
    /**
     * The buffers agree in length, every vertex number fits a `u32` and
     * every triangle names existing vertices or was rejected whole.
     */
    predicate Ok() {
      |normals| == |positions| && |colors| == |positions| && |positions| < U32Max &&
      |indices| % 3 == 0 && TrianglesOk(indices, |positions|)
    }
  }

  /** What the drawing routines read: the level's height, masks and flags, and where the tile's vertices start. */
  datatype Level = Level(height: real, upMask: Mask, downMask: Mask, flags: Flags, firstVertex: nat)

  /** The buffers together with the wall list of the current tile (`cell_walls[cell]`). */
  datatype Draw = Draw(buf: Buffers, walls: seq<nat>)

  /**
   * d1 only appended to d0: old contents are prefixes, the new normals and
   * colours are zero, the new indices name only new vertices and each new
   * wall names the first of four new vertices.
   */
  predicate Extends(d0: Draw, d1: Draw) {
    var b0, b1 := d0.buf, d1.buf;
    b0.positions <= b1.positions && b0.normals <= b1.normals && b0.colors <= b1.colors &&
    b0.indices <= b1.indices && d0.walls <= d1.walls &&
    (forall k | |b0.normals| <= k < |b1.normals| :: b1.normals[k] == ZeroVec3) &&
    (forall k | |b0.colors| <= k < |b1.colors| :: b1.colors[k] == ZeroVec4) &&
    (forall k | |b0.indices| <= k < |b1.indices| :: |b0.positions| <= b1.indices[k] < |b1.positions|) &&
    (forall k | |d0.walls| <= k < |d1.walls| :: |b0.positions| <= d1.walls[k] && d1.walls[k] + 4 <= |b1.positions|)
  }

  lemma ExtendsTrans(d0: Draw, d1: Draw, d2: Draw)
    requires Extends(d0, d1) && Extends(d1, d2)
    ensures Extends(d0, d2)
  {
  }

  /** `ms_triangle_3d`: three new vertices and one triangle naming them. */
  function MsTriangle3d(b: Buffers, p: Vec3, q: Vec3, s: Vec3): (r: Buffers)
    requires b.Ok() && |b.positions| + 3 < U32Max
    ensures r.Ok() && r.positions == b.positions + [p, q, s]
    ensures var n := |b.positions|; Triangles(r.indices) == Triangles(b.indices) + [Tri(n, n + 1, n + 2)]
  {
    var n := |b.positions|;
    var added := [n, n + 1, n + 2];
    TrianglesOkExtend(b.indices, n, added, n + 3);
    TrianglesAppend(b.indices, added);
    assert added[3..] == [];
    Buffers(b.positions + [p, q, s], b.normals + [ZeroVec3, ZeroVec3, ZeroVec3],
            b.colors + [ZeroVec4, ZeroVec4, ZeroVec4], b.indices + added)
  }

  /** `ms_quad_3d`: four new vertices and the triangles (a, b, c) and (a, c, d) over them. */
  /** The two triangles of a quad over the vertices n .. n + 3, appended to a well-formed index buffer. */
  lemma QuadAppended(s: seq<nat>, n: nat)
    requires |s| % 3 == 0 && TrianglesOk(s, n)
    ensures var added := [n, n + 1, n + 2, n, n + 2, n + 3];
      TrianglesOk(s + added, n + 4) && Triangles(s + added) == Triangles(s) + [Tri(n, n + 1, n + 2), Tri(n, n + 2, n + 3)]
  {
    var added := [n, n + 1, n + 2, n, n + 2, n + 3];
    TrianglesOkExtend(s, n, added, n + 4);
    TrianglesAppend(s, added);
    assert Triangles(added) == [Tri(n, n + 1, n + 2), Tri(n, n + 2, n + 3)];
  }

  function MsQuad3d(b: Buffers, p: Vec3, q: Vec3, s: Vec3, t: Vec3): (r: Buffers)
    requires b.Ok() && |b.positions| + 4 < U32Max
    ensures r.Ok() && r.positions == b.positions + [p, q, s, t]
    ensures var n := |b.positions|; Triangles(r.indices) == Triangles(b.indices) + [Tri(n, n + 1, n + 2), Tri(n, n + 2, n + 3)]
  {
    var n := |b.positions|;
    QuadAppended(b.indices, n);
    Buffers(b.positions + [p, q, s, t], b.normals + [ZeroVec3, ZeroVec3, ZeroVec3, ZeroVec3],
            b.colors + [ZeroVec4, ZeroVec4, ZeroVec4, ZeroVec4], b.indices + [n, n + 1, n + 2, n, n + 2, n + 3])
  }

  /** `ms_triangle`: a triangle of the canonical cell at the level's height. */
  function MsTriangle(d: Draw, lv: Level, p: Vec2, q: Vec2, s: Vec2): (r: Draw)
    requires d.buf.Ok() && |d.buf.positions| + 3 < U32Max
    ensures r.buf.Ok() && Extends(d, r) && |r.buf.positions| == |d.buf.positions| + 3
  {
    Draw(MsTriangle3d(d.buf, p.Extend(lv.height), q.Extend(lv.height), s.Extend(lv.height)), d.walls)
  }

  /** `ms_quad`: a quad of the canonical cell at the level's height. */
  function MsQuad(d: Draw, lv: Level, p: Vec2, q: Vec2, s: Vec2, t: Vec2): (r: Draw)
    requires d.buf.Ok() && |d.buf.positions| + 4 < U32Max
    ensures r.buf.Ok() && Extends(d, r) && |r.buf.positions| == |d.buf.positions| + 4
  {
    Draw(MsQuad3d(d.buf, p.Extend(lv.height), q.Extend(lv.height), s.Extend(lv.height), t.Extend(lv.height)), d.walls)
  }

  /** The scan loop of `ms_wall` over the vertices of the current tile. */
  method ScanWallTop(ps: seq<Vec3>, at: Vec2, h: real) returns (top: real)
    ensures top == WallTop(ps, at, h)
  {
    top := 1000.0;
    var k := 0;
    while k < |ps|
      invariant k <= |ps|
      invariant top == WallTop(ps[..k], at, h)
    {
      var pos := ps[k];
      if pos.XY() == at && pos.z > h && pos.z < top {
        top := pos.z;
      }
      assert ps[..k + 1][..k] == ps[..k];
      k := k + 1;
    }
    assert ps[..k] == ps;
  }

  /**
   * `ms_wall`: when some corner lies above the level, a vertical quad from
   * b to a rising from the level to the lowest vertex of the tile above the
   * level at a's final place (1000 when there is none); its first vertex
   * is recorded in the tile's wall list.  Nothing is drawn otherwise.
   */
  function MsWall(d: Draw, lv: Level, a: Vec2, b: Vec2): (r: Draw)
    requires d.buf.Ok() && lv.firstVertex <= |d.buf.positions| && |d.buf.positions| + 4 < U32Max
    ensures r.buf.Ok() && Extends(d, r)
    ensures lv.upMask == 0 ==> r == d
    ensures lv.upMask != 0 ==>
      var n, h := |d.buf.positions|, lv.height;
      var top := WallTop(d.buf.positions[lv.firstVertex..], TransformPoint(a, lv.flags), h);
      r.buf.positions == d.buf.positions + [b.Extend(h), a.Extend(h), a.Extend(top), b.Extend(top)] &&
      r.walls == d.walls + [n] && (h < 1000.0 ==> h < top)
  {
    if lv.upMask == 0 then d
    else
      var h := lv.height;
      var aTr := Place(a.Extend(h), lv.flags);
      var top := WallTop(d.buf.positions[lv.firstVertex..], aTr.XY(), h);
      Draw(MsQuad3d(d.buf, b.Extend(h), a.Extend(h), a.Extend(top), b.Extend(top)), d.walls + [|d.buf.positions|])
  }

  /** Vertices one drawing call appends. */
  function ShapeVertices(s: Shape, upMask: Mask): nat {
    match s
    case Triangle(_, _, _) => 3
    case Quad(_, _, _, _) => 4
    case Wall(_, _) => if upMask == 0 then 0 else 4
  }

  /** Vertices a list of drawing calls appends. */
  function VertexCount(shapes: seq<Shape>, upMask: Mask): (r: nat)
    ensures r <= 4 * |shapes|
  {
    if shapes == [] then 0
    else VertexCount(shapes[..|shapes| - 1], upMask) + ShapeVertices(shapes[|shapes| - 1], upMask)
  }

  function DrawShape(d: Draw, lv: Level, s: Shape): (r: Draw)
    requires d.buf.Ok() && lv.firstVertex <= |d.buf.positions| && |d.buf.positions| + 4 < U32Max
    ensures r.buf.Ok() && Extends(d, r) && |r.buf.positions| == |d.buf.positions| + ShapeVertices(s, lv.upMask)
  {
    match s
    case Triangle(a, b, c) => MsTriangle(d, lv, a, b, c)
    case Quad(a, b, c, e) => MsQuad(d, lv, a, b, c, e)
    case Wall(a, b) => MsWall(d, lv, a, b)
  }

  /**
   * The drawing calls performed in order: the buffers stay well formed and
   * grow by exactly the vertices the calls draw, and everything drawn is new
   * and names only new vertices.
   */
  function DrawShapes(d: Draw, lv: Level, shapes: seq<Shape>): (r: Draw)
    requires d.buf.Ok() && lv.firstVertex <= |d.buf.positions| && |d.buf.positions| + 4 * |shapes| < U32Max
    ensures r.buf.Ok() && Extends(d, r)
    ensures |r.buf.positions| == |d.buf.positions| + VertexCount(shapes, lv.upMask)
  {
    if shapes == [] then d
    else
      var init := shapes[..|shapes| - 1];
      var m := DrawShapes(d, lv, init);
      var r := DrawShape(m, lv, shapes[|shapes| - 1]);
      ExtendsTrans(d, m, r);
      r
  }

  /** `ms_case_1`: one corner at the level. */
  function MsCase1(upMask: Mask, downMask: Mask): seq<Shape> {
    [Triangle(Vec2(0.0, 0.0), Vec2(0.25, 0.0), Vec2(0.25, 0.25)),
     Triangle(Vec2(0.0, 0.0), Vec2(0.25, 0.25), Vec2(0.0, 0.25)),
     Triangle(Vec2(0.25, 0.0), Vec2(0.5, 0.0), Vec2(0.25, 0.25)),
     Triangle(Vec2(0.0, 0.25), Vec2(0.25, 0.25), Vec2(0.0, 0.5))] +
    if (upMask == 2 && downMask == 12) || (upMask == 12 && downMask == 2) then
      [Triangle(Vec2(0.25, 0.25), Vec2(0.5, 0.0), Vec2(0.75, 0.25)),
       Quad(Vec2(0.25, 0.25), Vec2(0.75, 0.25), Vec2(1.00, 0.50), Vec2(0.00, 0.50))] +
      if upMask == 2 then [Wall(Vec2(0.5, 0.0), Vec2(0.75, 0.25)), Wall(Vec2(0.75, 0.25), Vec2(1.0, 0.5))]
      else [Wall(Vec2(1.0, 0.5), Vec2(0.0, 0.5))]
    else if (upMask == 8 && downMask == 6) || (upMask == 6 && downMask == 8) then
      [Triangle(Vec2(0.25, 0.25), Vec2(0.25, 0.75), Vec2(0.0, 0.5)),
       Quad(Vec2(0.25, 0.25), Vec2(0.50, 0.00), Vec2(0.50, 1.00), Vec2(0.25, 0.75))] +
      if upMask == 8 then [Wall(Vec2(0.5, 1.0), Vec2(0.25, 0.75)), Wall(Vec2(0.25, 0.75), Vec2(0.0, 0.5))]
      else [Wall(Vec2(0.5, 0.0), Vec2(0.5, 1.0))]
    else if upMask == 4 && downMask == 10 then
      [Quad(Vec2(0.50, 0.50), Vec2(0.25, 0.25), Vec2(0.50, 0.00), Vec2(0.75, 0.25)),
       Quad(Vec2(0.50, 0.50), Vec2(0.75, 0.25), Vec2(1.00, 0.50), Vec2(0.75, 0.75)),
       Quad(Vec2(0.50, 0.50), Vec2(0.75, 0.75), Vec2(0.50, 1.00), Vec2(0.25, 0.75)),
       Quad(Vec2(0.50, 0.50), Vec2(0.25, 0.75), Vec2(0.00, 0.50), Vec2(0.25, 0.25)),
       Wall(Vec2(1.0, 0.5), Vec2(0.75, 0.75)),
       Wall(Vec2(0.75, 0.75), Vec2(0.5, 1.0))]
    else
      [Wall(Vec2(0.5, 0.0), Vec2(0.25, 0.25)), Wall(Vec2(0.25, 0.25), Vec2(0.0, 0.5))]
  }

  /** `ms_case_3`: two adjacent corners at the level. */
  function MsCase3(upMask: Mask, downMask: Mask): seq<Shape> {
    if (upMask == 4 && downMask == 8) || (upMask == 8 && downMask == 4) then
      [Triangle(Vec2(0.0, 0.0), Vec2(0.25, 0.25), Vec2(0.0, 0.25)),
       Triangle(Vec2(0.0, 0.25), Vec2(0.25, 0.25), Vec2(0.0, 0.5)),
       Triangle(Vec2(1.0, 0.0), Vec2(1.0, 0.25), Vec2(0.75, 0.25)),
       Triangle(Vec2(1.0, 0.25), Vec2(1.0, 0.5), Vec2(0.75, 0.25)),
       Triangle(Vec2(0.25, 0.25), Vec2(0.75, 0.25), Vec2(0.5, 0.5)),
       Quad(Vec2(0.50, 0.50), Vec2(0.75, 0.25), Vec2(1.00, 0.50), Vec2(0.75, 0.75)),
       Quad(Vec2(0.50, 0.50), Vec2(0.75, 0.75), Vec2(0.50, 1.00), Vec2(0.25, 0.75)),
       Quad(Vec2(0.50, 0.50), Vec2(0.25, 0.75), Vec2(0.00, 0.50), Vec2(0.25, 0.25))] +
      if upMask == 4 then [Wall(Vec2(1.0, 0.5), Vec2(0.75, 0.75)), Wall(Vec2(0.75, 0.75), Vec2(0.5, 1.0))]
      else [Wall(Vec2(0.5, 1.0), Vec2(0.25, 0.75)), Wall(Vec2(0.25, 0.75), Vec2(0.0, 0.5))]
    else
      [Quad(Vec2(0.0, 0.00), Vec2(1.0, 0.00), Vec2(1.0, 0.25), Vec2(0.0, 0.25)),
       Quad(Vec2(0.0, 0.25), Vec2(1.0, 0.25), Vec2(1.0, 0.50), Vec2(0.0, 0.50)),
       Wall(Vec2(1.0, 0.5), Vec2(0.0, 0.5))]
  }

  /** `ms_case_5`: two opposite corners at the level. */
  function MsCase5(upMask: Mask): seq<Shape> {
    [Triangle(Vec2(0.0, 0.0), Vec2(0.25, 0.0), Vec2(0.25, 0.25)),
     Triangle(Vec2(0.0, 0.0), Vec2(0.25, 0.25), Vec2(0.0, 0.25)),
     Triangle(Vec2(0.25, 0.0), Vec2(0.5, 0.0), Vec2(0.25, 0.25)),
     Triangle(Vec2(0.0, 0.25), Vec2(0.25, 0.25), Vec2(0.0, 0.5)),
     Triangle(Vec2(0.75, 0.75), Vec2(1.0, 0.75), Vec2(1.0, 1.0)),
     Triangle(Vec2(0.75, 0.75), Vec2(1.0, 1.0), Vec2(0.75, 1.0)),
     Triangle(Vec2(0.75, 0.75), Vec2(1.0, 0.5), Vec2(1.0, 0.75)),
     Triangle(Vec2(0.75, 0.75), Vec2(0.75, 1.0), Vec2(0.5, 1.0))] +
    if upMask != 10 then
      [Quad(Vec2(0.50, 0.50), Vec2(0.25, 0.25), Vec2(0.50, 0.00), Vec2(0.75, 0.25)),
       Quad(Vec2(0.50, 0.50), Vec2(0.75, 0.25), Vec2(1.00, 0.50), Vec2(0.75, 0.75)),
       Quad(Vec2(0.50, 0.50), Vec2(0.75, 0.75), Vec2(0.50, 1.00), Vec2(0.25, 0.75)),
       Quad(Vec2(0.50, 0.50), Vec2(0.25, 0.75), Vec2(0.00, 0.50), Vec2(0.25, 0.25))] +
      (if (upMask & 8) != 0 then [Wall(Vec2(0.5, 1.0), Vec2(0.25, 0.75)), Wall(Vec2(0.25, 0.75), Vec2(0.0, 0.5))] else []) +
      (if (upMask & 2) != 0 then [Wall(Vec2(0.5, 0.0), Vec2(0.75, 0.25)), Wall(Vec2(0.75, 0.25), Vec2(1.0, 0.5))] else [])
    else
      [Wall(Vec2(0.5, 0.0), Vec2(0.25, 0.25)),
       Wall(Vec2(0.25, 0.25), Vec2(0.0, 0.5)),
       Wall(Vec2(0.5, 1.0), Vec2(0.75, 0.75)),
       Wall(Vec2(0.75, 0.75), Vec2(1.0, 0.5))]
  }

  /** `ms_case_7`: three corners at the level. */
  function MsCase7(): seq<Shape> {
    [Triangle(Vec2(0.0, 0.0), Vec2(0.25, 0.25), Vec2(0.0, 0.25)),
     Triangle(Vec2(0.0, 0.0), Vec2(1.0, 0.0), Vec2(0.25, 0.25)),
     Triangle(Vec2(0.0, 0.25), Vec2(0.25, 0.25), Vec2(0.0, 0.5)),
     Triangle(Vec2(0.25, 0.25), Vec2(1.0, 0.0), Vec2(0.5, 0.5)),
     Triangle(Vec2(1.0, 0.0), Vec2(1.0, 1.0), Vec2(0.75, 0.75)),
     Triangle(Vec2(0.75, 0.75), Vec2(1.0, 1.0), Vec2(0.75, 1.0)),
     Triangle(Vec2(0.75, 0.75), Vec2(0.75, 1.0), Vec2(0.5, 1.0)),
     Triangle(Vec2(0.75, 0.75), Vec2(0.5, 0.5), Vec2(1.0, 0.0)),
     Quad(Vec2(0.50, 0.50), Vec2(0.75, 0.75), Vec2(0.50, 1.00), Vec2(0.25, 0.75)),
     Quad(Vec2(0.50, 0.50), Vec2(0.25, 0.75), Vec2(0.00, 0.50), Vec2(0.25, 0.25)),
     Wall(Vec2(0.5, 1.0), Vec2(0.25, 0.75)),
     Wall(Vec2(0.25, 0.75), Vec2(0.0, 0.5))]
  }

  /** `ms_case_15`: the whole tile at the level. */
  function MsCase15(): seq<Shape> {
    [Quad(Vec2(0.0, 0.0), Vec2(1.0, 0.0), Vec2(1.0, 1.0), Vec2(0.0, 1.0))]
  }

  /** The drawing calls of the canonical case `c` (no calls for any other mask). */
  function CaseShapes(c: Mask, upMask: Mask, downMask: Mask): (r: seq<Shape>)
    ensures |r| <= 16
  {
    if c == 1 then MsCase1(upMask, downMask)
    else if c == 3 then MsCase3(upMask, downMask)
    else if c == 5 then MsCase5(upMask)
    else if c == 7 then MsCase7()
    else if c == 15 then MsCase15()
    else []
  }

  /** The triangles and quads `MsCase1` may draw. */
  function Case1Floors(): seq<Shape> {
    [Triangle(Vec2(0.0, 0.0), Vec2(0.25, 0.0), Vec2(0.25, 0.25)),
     Triangle(Vec2(0.0, 0.0), Vec2(0.25, 0.25), Vec2(0.0, 0.25)),
     Triangle(Vec2(0.25, 0.0), Vec2(0.5, 0.0), Vec2(0.25, 0.25)),
     Triangle(Vec2(0.0, 0.25), Vec2(0.25, 0.25), Vec2(0.0, 0.5)),
     Triangle(Vec2(0.25, 0.25), Vec2(0.5, 0.0), Vec2(0.75, 0.25)),
     Triangle(Vec2(0.25, 0.25), Vec2(0.25, 0.75), Vec2(0.0, 0.5)),
     Quad(Vec2(0.25, 0.25), Vec2(0.75, 0.25), Vec2(1.00, 0.50), Vec2(0.00, 0.50)),
     Quad(Vec2(0.25, 0.25), Vec2(0.50, 0.00), Vec2(0.50, 1.00), Vec2(0.25, 0.75)),
     Quad(Vec2(0.50, 0.50), Vec2(0.25, 0.25), Vec2(0.50, 0.00), Vec2(0.75, 0.25)),
     Quad(Vec2(0.50, 0.50), Vec2(0.75, 0.25), Vec2(1.00, 0.50), Vec2(0.75, 0.75)),
     Quad(Vec2(0.50, 0.50), Vec2(0.75, 0.75), Vec2(0.50, 1.00), Vec2(0.25, 0.75)),
     Quad(Vec2(0.50, 0.50), Vec2(0.25, 0.75), Vec2(0.00, 0.50), Vec2(0.25, 0.25))]
  }

  lemma Case1FloorsUp()
    ensures AllFaceUp(Case1Floors())
  {
    OrientAt(0.0, 0.0, 0.25, 0.0, 0.25, 0.25);
    OrientAt(0.0, 0.0, 0.25, 0.25, 0.0, 0.25);
    OrientAt(0.25, 0.0, 0.5, 0.0, 0.25, 0.25);
    OrientAt(0.0, 0.25, 0.25, 0.25, 0.0, 0.5);
    OrientAt(0.25, 0.25, 0.5, 0.0, 0.75, 0.25);
    OrientAt(0.25, 0.25, 0.25, 0.75, 0.0, 0.5);
    OrientAt(0.25, 0.25, 0.75, 0.25, 1.00, 0.50);
    OrientAt(0.25, 0.25, 1.00, 0.50, 0.00, 0.50);
    OrientAt(0.25, 0.25, 0.50, 0.00, 0.50, 1.00);
    OrientAt(0.25, 0.25, 0.50, 1.00, 0.25, 0.75);
    OrientAt(0.50, 0.50, 0.25, 0.25, 0.50, 0.00);
    OrientAt(0.50, 0.50, 0.50, 0.00, 0.75, 0.25);
    OrientAt(0.50, 0.50, 0.75, 0.25, 1.00, 0.50);
    OrientAt(0.50, 0.50, 1.00, 0.50, 0.75, 0.75);
    OrientAt(0.50, 0.50, 0.75, 0.75, 0.50, 1.00);
    OrientAt(0.50, 0.50, 0.50, 1.00, 0.25, 0.75);
    OrientAt(0.50, 0.50, 0.25, 0.75, 0.00, 0.50);
    OrientAt(0.50, 0.50, 0.00, 0.50, 0.25, 0.25);
  }

  /** Every call `MsCase1` makes is a wall or one of `Case1Floors`. */
  lemma Case1Within(upMask: Mask, downMask: Mask)
    ensures var s := MsCase1(upMask, downMask); forall k | 0 <= k < |s| :: s[k].Wall? || s[k] in Case1Floors()
  {
  }

  lemma Case1FacesUp(upMask: Mask, downMask: Mask)
    ensures AllFaceUp(MsCase1(upMask, downMask))
  {
    Case1FloorsUp();
    Case1Within(upMask, downMask);
    AllFaceUpWithin(MsCase1(upMask, downMask), Case1Floors());
  }

  /** The triangles and quads `MsCase3` may draw. */
  function Case3Floors(): seq<Shape> {
    [Triangle(Vec2(0.0, 0.0), Vec2(0.25, 0.25), Vec2(0.0, 0.25)),
     Triangle(Vec2(0.0, 0.25), Vec2(0.25, 0.25), Vec2(0.0, 0.5)),
     Triangle(Vec2(1.0, 0.0), Vec2(1.0, 0.25), Vec2(0.75, 0.25)),
     Triangle(Vec2(1.0, 0.25), Vec2(1.0, 0.5), Vec2(0.75, 0.25)),
     Triangle(Vec2(0.25, 0.25), Vec2(0.75, 0.25), Vec2(0.5, 0.5)),
     Quad(Vec2(0.50, 0.50), Vec2(0.75, 0.25), Vec2(1.00, 0.50), Vec2(0.75, 0.75)),
     Quad(Vec2(0.50, 0.50), Vec2(0.75, 0.75), Vec2(0.50, 1.00), Vec2(0.25, 0.75)),
     Quad(Vec2(0.50, 0.50), Vec2(0.25, 0.75), Vec2(0.00, 0.50), Vec2(0.25, 0.25)),
     Quad(Vec2(0.0, 0.00), Vec2(1.0, 0.00), Vec2(1.0, 0.25), Vec2(0.0, 0.25)),
     Quad(Vec2(0.0, 0.25), Vec2(1.0, 0.25), Vec2(1.0, 0.50), Vec2(0.0, 0.50))]
  }

  lemma Case3FloorsUp()
    ensures AllFaceUp(Case3Floors())
  {
    OrientAt(0.0, 0.0, 0.25, 0.25, 0.0, 0.25);
    OrientAt(0.0, 0.25, 0.25, 0.25, 0.0, 0.5);
    OrientAt(1.0, 0.0, 1.0, 0.25, 0.75, 0.25);
    OrientAt(1.0, 0.25, 1.0, 0.5, 0.75, 0.25);
    OrientAt(0.25, 0.25, 0.75, 0.25, 0.5, 0.5);
    OrientAt(0.50, 0.50, 0.75, 0.25, 1.00, 0.50);
    OrientAt(0.50, 0.50, 1.00, 0.50, 0.75, 0.75);
    OrientAt(0.50, 0.50, 0.75, 0.75, 0.50, 1.00);
    OrientAt(0.50, 0.50, 0.50, 1.00, 0.25, 0.75);
    OrientAt(0.50, 0.50, 0.25, 0.75, 0.00, 0.50);
    OrientAt(0.50, 0.50, 0.00, 0.50, 0.25, 0.25);
    OrientAt(0.0, 0.00, 1.0, 0.00, 1.0, 0.25);
    OrientAt(0.0, 0.00, 1.0, 0.25, 0.0, 0.25);
    OrientAt(0.0, 0.25, 1.0, 0.25, 1.0, 0.50);
    OrientAt(0.0, 0.25, 1.0, 0.50, 0.0, 0.50);
  }

  /** Every call `MsCase3` makes is a wall or one of `Case3Floors`. */
  lemma Case3Within(upMask: Mask, downMask: Mask)
    ensures var s := MsCase3(upMask, downMask); forall k | 0 <= k < |s| :: s[k].Wall? || s[k] in Case3Floors()
  {
  }

  lemma Case3FacesUp(upMask: Mask, downMask: Mask)
    ensures AllFaceUp(MsCase3(upMask, downMask))
  {
    Case3FloorsUp();
    Case3Within(upMask, downMask);
    AllFaceUpWithin(MsCase3(upMask, downMask), Case3Floors());
  }

  /** The triangles and quads `MsCase5` may draw. */
  function Case5Floors(): seq<Shape> {
    [Triangle(Vec2(0.0, 0.0), Vec2(0.25, 0.0), Vec2(0.25, 0.25)),
     Triangle(Vec2(0.0, 0.0), Vec2(0.25, 0.25), Vec2(0.0, 0.25)),
     Triangle(Vec2(0.25, 0.0), Vec2(0.5, 0.0), Vec2(0.25, 0.25)),
     Triangle(Vec2(0.0, 0.25), Vec2(0.25, 0.25), Vec2(0.0, 0.5)),
     Triangle(Vec2(0.75, 0.75), Vec2(1.0, 0.75), Vec2(1.0, 1.0)),
     Triangle(Vec2(0.75, 0.75), Vec2(1.0, 1.0), Vec2(0.75, 1.0)),
     Triangle(Vec2(0.75, 0.75), Vec2(1.0, 0.5), Vec2(1.0, 0.75)),
     Triangle(Vec2(0.75, 0.75), Vec2(0.75, 1.0), Vec2(0.5, 1.0)),
     Quad(Vec2(0.50, 0.50), Vec2(0.25, 0.25), Vec2(0.50, 0.00), Vec2(0.75, 0.25)),
     Quad(Vec2(0.50, 0.50), Vec2(0.75, 0.25), Vec2(1.00, 0.50), Vec2(0.75, 0.75)),
     Quad(Vec2(0.50, 0.50), Vec2(0.75, 0.75), Vec2(0.50, 1.00), Vec2(0.25, 0.75)),
     Quad(Vec2(0.50, 0.50), Vec2(0.25, 0.75), Vec2(0.00, 0.50), Vec2(0.25, 0.25))]
  }

  lemma Case5FloorsUp()
    ensures AllFaceUp(Case5Floors())
  {
    OrientAt(0.0, 0.0, 0.25, 0.0, 0.25, 0.25);
    OrientAt(0.0, 0.0, 0.25, 0.25, 0.0, 0.25);
    OrientAt(0.25, 0.0, 0.5, 0.0, 0.25, 0.25);
    OrientAt(0.0, 0.25, 0.25, 0.25, 0.0, 0.5);
    OrientAt(0.75, 0.75, 1.0, 0.75, 1.0, 1.0);
    OrientAt(0.75, 0.75, 1.0, 1.0, 0.75, 1.0);
    OrientAt(0.75, 0.75, 1.0, 0.5, 1.0, 0.75);
    OrientAt(0.75, 0.75, 0.75, 1.0, 0.5, 1.0);
    OrientAt(0.50, 0.50, 0.25, 0.25, 0.50, 0.00);
    OrientAt(0.50, 0.50, 0.50, 0.00, 0.75, 0.25);
    OrientAt(0.50, 0.50, 0.75, 0.25, 1.00, 0.50);
    OrientAt(0.50, 0.50, 1.00, 0.50, 0.75, 0.75);
    OrientAt(0.50, 0.50, 0.75, 0.75, 0.50, 1.00);
    OrientAt(0.50, 0.50, 0.50, 1.00, 0.25, 0.75);
    OrientAt(0.50, 0.50, 0.25, 0.75, 0.00, 0.50);
    OrientAt(0.50, 0.50, 0.00, 0.50, 0.25, 0.25);
  }

  /** Every call `MsCase5` makes is a wall or one of `Case5Floors`. */
  lemma Case5Within(upMask: Mask)
    ensures var s := MsCase5(upMask); forall k | 0 <= k < |s| :: s[k].Wall? || s[k] in Case5Floors()
  {
  }

  lemma Case5FacesUp(upMask: Mask)
    ensures AllFaceUp(MsCase5(upMask))
  {
    Case5FloorsUp();
    Case5Within(upMask);
    AllFaceUpWithin(MsCase5(upMask), Case5Floors());
  }

  /** The triangles and quads `MsCase7` may draw. */
  function Case7Floors(): seq<Shape> {
    [Triangle(Vec2(0.0, 0.0), Vec2(0.25, 0.25), Vec2(0.0, 0.25)),
     Triangle(Vec2(0.0, 0.0), Vec2(1.0, 0.0), Vec2(0.25, 0.25)),
     Triangle(Vec2(0.0, 0.25), Vec2(0.25, 0.25), Vec2(0.0, 0.5)),
     Triangle(Vec2(0.25, 0.25), Vec2(1.0, 0.0), Vec2(0.5, 0.5)),
     Triangle(Vec2(1.0, 0.0), Vec2(1.0, 1.0), Vec2(0.75, 0.75)),
     Triangle(Vec2(0.75, 0.75), Vec2(1.0, 1.0), Vec2(0.75, 1.0)),
     Triangle(Vec2(0.75, 0.75), Vec2(0.75, 1.0), Vec2(0.5, 1.0)),
     Triangle(Vec2(0.75, 0.75), Vec2(0.5, 0.5), Vec2(1.0, 0.0)),
     Quad(Vec2(0.50, 0.50), Vec2(0.75, 0.75), Vec2(0.50, 1.00), Vec2(0.25, 0.75)),
     Quad(Vec2(0.50, 0.50), Vec2(0.25, 0.75), Vec2(0.00, 0.50), Vec2(0.25, 0.25))]
  }

  lemma Case7FloorsUp()
    ensures AllFaceUp(Case7Floors())
  {
    OrientAt(0.0, 0.0, 0.25, 0.25, 0.0, 0.25);
    OrientAt(0.0, 0.0, 1.0, 0.0, 0.25, 0.25);
    OrientAt(0.0, 0.25, 0.25, 0.25, 0.0, 0.5);
    OrientAt(0.25, 0.25, 1.0, 0.0, 0.5, 0.5);
    OrientAt(1.0, 0.0, 1.0, 1.0, 0.75, 0.75);
    OrientAt(0.75, 0.75, 1.0, 1.0, 0.75, 1.0);
    OrientAt(0.75, 0.75, 0.75, 1.0, 0.5, 1.0);
    OrientAt(0.75, 0.75, 0.5, 0.5, 1.0, 0.0);
    OrientAt(0.50, 0.50, 0.75, 0.75, 0.50, 1.00);
    OrientAt(0.50, 0.50, 0.50, 1.00, 0.25, 0.75);
    OrientAt(0.50, 0.50, 0.25, 0.75, 0.00, 0.50);
    OrientAt(0.50, 0.50, 0.00, 0.50, 0.25, 0.25);
  }

  /** Every call `MsCase7` makes is a wall or one of `Case7Floors`. */
  lemma Case7Within()
    ensures var s := MsCase7(); forall k | 0 <= k < |s| :: s[k].Wall? || s[k] in Case7Floors()
  {
  }

  lemma Case7FacesUp()
    ensures AllFaceUp(MsCase7())
  {
    Case7FloorsUp();
    Case7Within();
    AllFaceUpWithin(MsCase7(), Case7Floors());
  }

  /** The triangles and quads `MsCase15` may draw. */
  function Case15Floors(): seq<Shape> {
    [Quad(Vec2(0.0, 0.0), Vec2(1.0, 0.0), Vec2(1.0, 1.0), Vec2(0.0, 1.0))]
  }

  lemma Case15FloorsUp()
    ensures AllFaceUp(Case15Floors())
  {
    OrientAt(0.0, 0.0, 1.0, 0.0, 1.0, 1.0);
    OrientAt(0.0, 0.0, 1.0, 1.0, 0.0, 1.0);
  }

  /** Every call `MsCase15` makes is a wall or one of `Case15Floors`. */
  lemma Case15Within()
    ensures var s := MsCase15(); forall k | 0 <= k < |s| :: s[k].Wall? || s[k] in Case15Floors()
  {
  }

  lemma Case15FacesUp()
    ensures AllFaceUp(MsCase15())
  {
    Case15FloorsUp();
    Case15Within();
    AllFaceUpWithin(MsCase15(), Case15Floors());
  }


  /** Every triangle and quad the canonical cases draw is counter-clockwise seen from above. */
  lemma CasesFaceUp(c: Mask, upMask: Mask, downMask: Mask)
    ensures AllFaceUp(CaseShapes(c, upMask, downMask))
  {
    if c == 1 {
      Case1FacesUp(upMask, downMask);
    } else if c == 3 {
      Case3FacesUp(upMask, downMask);
    } else if c == 5 {
      Case5FacesUp(upMask);
    } else if c == 7 {
      Case7FacesUp();
    } else if c == 15 {
      Case15FacesUp();
    }
  }

  /** Each vertex from `start` on moved to its place for the flags; earlier vertices are kept. */
  function PlaceTail(ps: seq<Vec3>, start: nat, f: Flags): (r: seq<Vec3>)
    ensures |r| == |ps|
  {
    seq(|ps|, k requires 0 <= k < |ps| => if k < start then ps[k] else Place(ps[k], f))
  }

  /** The slot whose index lands in slot k when the last two indices of every triangle swap places. */
  function SwapSlot(k: nat): nat {
    if k % 3 == 1 then k + 1 else if k % 3 == 2 then k - 1 else k
  }

  lemma SwapSlotsAt(t: nat)
    requires t % 3 == 0
    ensures SwapSlot(t) == t && SwapSlot(t + 1) == t + 2 && SwapSlot(t + 2) == t + 1
  {
  }

  /** The index buffer with the last two indices of every triangle from `start` on swapped, when `swap`. */
  function SwapTail(ids: seq<nat>, start: nat, swap: bool): (r: seq<nat>)
    requires |ids| % 3 == 0
    ensures |r| == |ids|
  {
    seq(|ids|, k requires 0 <= k < |ids| => if swap && start <= k then ids[SwapSlot(k)] else ids[k])
  }

  /** Swapping reverses exactly the triangles from `start` on: b and c trade places, a stays. */
  lemma SwapTailTriangles(ids: seq<nat>, start: nat, swap: bool)
    requires |ids| % 3 == 0 && start % 3 == 0
    ensures var r := SwapTail(ids, start, swap);
      forall t | 0 <= t < |ids| / 3 ::
        Triangles(r)[t] == if swap && start <= 3 * t then SwapBC(Triangles(ids)[t]) else Triangles(ids)[t]
  {
    var r := SwapTail(ids, start, swap);
    forall t | 0 <= t < |ids| / 3
      ensures Triangles(r)[t] == if swap && start <= 3 * t then SwapBC(Triangles(ids)[t]) else Triangles(ids)[t]
    {
      var k := 3 * t;
      SlotsOf(t);
      AlignedBelow(start, t);
      assert Triangles(r)[t] == Tri(r[k], r[k + 1], r[k + 2]);
      assert Triangles(ids)[t] == Tri(ids[k], ids[k + 1], ids[k + 2]);
      if swap && start <= k {
        assert r[k] == ids[k] && r[k + 1] == ids[k + 2] && r[k + 2] == ids[k + 1];
      } else {
        assert r[k] == ids[k] && r[k + 1] == ids[k + 1] && r[k + 2] == ids[k + 2];
      }
    }
  }

  lemma AlignedBelow(start: nat, t: nat)
    requires start % 3 == 0
    ensures start <= 3 * t <==> start <= 3 * t + 2
  {
    var q := start / 3;
    assert start == 3 * q;
  }

  lemma SlotsOf(t: nat)
    ensures SwapSlot(3 * t) == 3 * t && SwapSlot(3 * t + 1) == 3 * t + 2 && SwapSlot(3 * t + 2) == 3 * t + 1
  {
    assert (3 * t) % 3 == 0 && (3 * t + 1) % 3 == 1 && (3 * t + 2) % 3 == 2;
  }

  /** Reversing triangles keeps an index buffer well formed. */
  lemma SwapTailOk(ids: seq<nat>, start: nat, swap: bool, n: nat)
    requires |ids| % 3 == 0 && start % 3 == 0 && TrianglesOk(ids, n)
    ensures TrianglesOk(SwapTail(ids, start, swap), n)
  {
    var r := SwapTail(ids, start, swap);
    SwapTailTriangles(ids, start, swap);
    TrianglesOkIff(ids, n);
    TrianglesOkIff(r, n);
    forall u | u in Triangles(r) ensures TriOk(u, n) {
      var t :| 0 <= t < |Triangles(r)| && Triangles(r)[t] == u;
      assert Triangles(ids)[t] in Triangles(ids);
    }
  }

  /** The buffers after `ms_transform_points` moved everything drawn from `startVertex` and `startIndex` on. */
  function Placed(b: Buffers, startVertex: nat, startIndex: nat, f: Flags): (r: Buffers)
    requires |b.indices| % 3 == 0
  {
    Buffers(PlaceTail(b.positions, startVertex, f), b.normals, b.colors, SwapTail(b.indices, startIndex, f.flipX != f.flipY))
  }

  /**
   * A move applied to the tail of the position buffer: the three moves of
   * `ms_transform_points`, the shift of a tile to its place in
   * `generate_cells` and the horizontal scaling of `apply_scale`.
   */
  datatype Move = MoveFlipX | MoveFlipY | MoveRotate | MoveBy(dx: int, dy: int) | MoveScale(k: real)

  function Moved(m: Move, p: Vec3): Vec3 {
    match m
    case MoveFlipX => Vec3(1.0 - p.x, p.y, p.z)
    case MoveFlipY => Vec3(p.x, 1.0 - p.y, p.z)
    case MoveRotate => Vec3(1.0 - p.y, p.x, p.z)
    case MoveBy(dx, dy) => Vec3(p.x + dx as real, p.y + dy as real, p.z)
    case MoveScale(k) => Vec3(p.x * k, p.y * k, p.z)
  }

  /**
   * b1 only appended to b0, except that positions from |b0.positions| on
   * may have moved: old contents are prefixes and the new indices name only
   * new vertices.
   */
  predicate Grows(b0: Buffers, b1: Buffers) {
    |b0.positions| <= |b1.positions| && b0.normals <= b1.normals && b0.colors <= b1.colors &&
    b1.positions[..|b0.positions|] == b0.positions && b0.indices <= b1.indices &&
    (forall k | |b0.indices| <= k < |b1.indices| :: |b0.positions| <= b1.indices[k] < |b1.positions|)
  }

  lemma GrowsTrans(b0: Buffers, b1: Buffers, b2: Buffers)
    requires Grows(b0, b1) && Grows(b1, b2)
    ensures Grows(b0, b2)
  {
    assert b2.positions[..|b0.positions|] == b2.positions[..|b1.positions|][..|b0.positions|];
  }

  /** Moving vertices that are new since b0 keeps the growth from b0. */
  lemma GrowsMoved(b0: Buffers, b1: Buffers, ps: seq<Vec3>)
    requires Grows(b0, b1) && |ps| == |b1.positions| && ps[..|b0.positions|] == b1.positions[..|b0.positions|]
    ensures Grows(b0, b1.(positions := ps))
  {
  }

  /** A tile added with the span of what it drew keeps the tables and ownership. */
  lemma TablesAdd(vs: map<IVec2, Span>, ix: map<IVec2, Span>, b0: Buffers, b1: Buffers, c: IVec2)
    requires TablesOk(vs, ix, |b0.positions|, |b0.indices|) && OwnVertices(vs, ix, b0.indices)
    requires Grows(b0, b1) && |b0.indices| % 3 == 0 && |b1.indices| % 3 == 0
    ensures var vs', ix' := vs[c := Span(|b0.positions|, |b1.positions|)], ix[c := Span(|b0.indices|, |b1.indices|)];
      TablesOk(vs', ix', |b1.positions|, |b1.indices|) && OwnVertices(vs', ix', b1.indices)
  {
    var vs', ix' := vs[c := Span(|b0.positions|, |b1.positions|)], ix[c := Span(|b0.indices|, |b1.indices|)];
    forall d | d in ix' && d in vs'
      ensures ix'[d].end <= |b1.indices| && forall k | ix'[d].start <= k < ix'[d].end :: vs'[d].start <= b1.indices[k] < vs'[d].end
    {
      if d != c {
        forall k | ix'[d].start <= k < ix'[d].end ensures vs'[d].start <= b1.indices[k] < vs'[d].end {
          assert b1.indices[k] == b0.indices[k];
        }
      }
    }
  }

  /** The partner slot of a slot stays inside its own triangle. */
  lemma SwapSlotRange(k: nat, start: nat, len: nat)
    requires start % 3 == 0 && len % 3 == 0 && start <= k < len
    ensures start <= SwapSlot(k) < len
  {
    var t := k / 3;
    assert k == 3 * t + k % 3;
    AlignedBelow(start, t);
    var u := len / 3;
    assert len == 3 * u;
  }

  /**
   * Moving what a level drew into place keeps everything before it: the
   * buffers after `ms_transform_points` grew from those before the level.
   */
  lemma PlacedGrows(b0: Buffers, w0: seq<nat>, d: Draw, f: Flags)
    requires d.buf.Ok() && |b0.indices| % 3 == 0 && Extends(Draw(b0, w0), d)
    ensures Grows(b0, Placed(d.buf, |b0.positions|, |b0.indices|, f))
  {
    var b1 := Placed(d.buf, |b0.positions|, |b0.indices|, f);
    var n, m := |b0.positions|, |b0.indices|;
    assert b1.positions[..n] == b0.positions;
    forall k | m <= k < |b1.indices| ensures n <= b1.indices[k] < |b1.positions| {
      if f.flipX != f.flipY {
        SwapSlotRange(k, m, |d.buf.indices|);
      }
    }
    assert b1.indices[..m] == b0.indices;
  }

  /** Appending walls whose four vertices exist keeps the wall lists valid. */
  /**
   * A level drawn in the canonical cell and moved into place only grows the
   * buffers, within the level budget, and changes no wall list but the
   * tile's.
   */
  lemma LevelGrows(b0: Buffers, ws0: map<IVec2, seq<nat>>, c: IVec2, d: Draw, f: Flags, canonical: bool,
                   b1: Buffers, ws1: map<IVec2, seq<nat>>)
    requires b0.Ok() && WallsOk(ws0, |b0.positions|)
    requires d.buf.Ok() && Extends(Draw(b0, WallsAt(ws0, c)), d) && |d.buf.positions| <= |b0.positions| + LevelBudget
    requires b1 == Placed(d.buf, |b0.positions|, |b0.indices|, f)
    requires ws1 == if canonical then ws0[c := d.walls] else ws0
    ensures Grows(b0, b1) && |b1.positions| <= |b0.positions| + LevelBudget
    ensures WallsOk(ws1, |b1.positions|)
    ensures forall c' | c' != c :: WallsAt(ws1, c') == WallsAt(ws0, c')
  {
    PlacedGrows(b0, WallsAt(ws0, c), d, f);
    if canonical {
      WallsExtend(ws0, c, d.walls, |b0.positions|, |b1.positions|);
    }
  }

  lemma WallsExtend(ws: map<IVec2, seq<nat>>, c: IVec2, w: seq<nat>, n: nat, n': nat)
    requires WallsOk(ws, n) && n <= n' && WallsAt(ws, c) <= w
    requires forall k | |WallsAt(ws, c)| <= k < |w| :: w[k] + 4 <= n'
    ensures WallsOk(ws[c := w], n')
  {
    var ws' := ws[c := w];
    forall d | d in ws' ensures forall k | 0 <= k < |ws'[d]| :: ws'[d][k] + 4 <= n' {
      if d == c {
        forall k | 0 <= k < |w| ensures w[k] + 4 <= n' {
          if k < |WallsAt(ws, c)| {
            assert w[k] == WallsAt(ws, c)[k];
          }
        }
      }
    }
  }

  /** The four corners of tile `pos` lie on the height map. */
  predicate CornersInside(g: GridValue<real>, pos: IVec2) {
    Contains(g, pos) && Contains(g, pos.Plus(IVec2(1, 0))) &&
    Contains(g, pos.Plus(IVec2(1, 1))) && Contains(g, pos.Plus(IVec2(0, 1)))
  }

  /**
   * The quantised heights of the corners of tile `pos` in corner order:
   * top-left, top-right, bottom-right, bottom-left.
   */
  function Corners(g: GridValue<real>, pos: IVec2): (r: seq<real>)
    requires CornersInside(g, pos)
    ensures |r| == 4
  {
    [Quantize(At(g, pos), HeightStep), Quantize(At(g, pos.Plus(IVec2(1, 0))), HeightStep),
     Quantize(At(g, pos.Plus(IVec2(1, 1))), HeightStep), Quantize(At(g, pos.Plus(IVec2(0, 1))), HeightStep)]
  }

  /** Slot k of a buffer lies in the span. */
  predicate InSpan(sp: Span, k: int) {
    sp.start <= k < sp.end
  }

  /** Slot k lies in the span table ix gives one of the tiles. */
  predicate Covered(ix: map<IVec2, Span>, cells: seq<IVec2>, k: int) {
    |cells| > 0 && (Covered(ix, cells[..|cells| - 1], k) || InSpan(SpanAt(ix, cells[|cells| - 1]), k))
  }

  lemma {:induction false} CoveredByMember(ix: map<IVec2, Span>, cells: seq<IVec2>, c: IVec2, k: int)
    requires c in cells && InSpan(SpanAt(ix, c), k)
    ensures Covered(ix, cells, k)
  {
    var init := cells[..|cells| - 1];
    if c != cells[|cells| - 1] {
      assert cells == init + [cells[|cells| - 1]];
      CoveredByMember(ix, init, c, k);
    }
  }

  /**
   * Overwriting a span of whole triangles with `u32::MAX` rejects those
   * triangles whole and leaves the others: the buffer stays well formed.
   */
  lemma RejectSpanOk(ids: seq<nat>, r: seq<nat>, sp: Span, n: nat)
    requires |ids| % 3 == 0 && TrianglesOk(ids, n) && sp.start % 3 == 0 && sp.end % 3 == 0
    requires |r| == |ids| && forall k | 0 <= k < |r| :: r[k] == if InSpan(sp, k) then U32Max else ids[k]
    ensures TrianglesOk(r, n)
  {
    TrianglesOkIff(ids, n);
    var a, b := sp.start / 3, sp.end / 3;
    assert sp.start == 3 * a && sp.end == 3 * b;
    var ts, us := Triangles(ids), Triangles(r);
    forall i | 0 <= i < |us| ensures TriOk(us[i], n) {
      if a <= i < b {
        assert us[i] == Rejected;
      } else {
        assert us[i] == ts[i];
        assert ts[i] in ts;
      }
    }
    TrianglesOkIff(r, n);
  }

  /** The table with the span of every tile of `cells` set to `[0, 0]`, one tile after the other. */
  function ClearSpans(m: map<IVec2, Span>, cells: seq<IVec2>): map<IVec2, Span> {
    if cells == [] then m else ClearSpans(m, cells[..|cells| - 1])[cells[|cells| - 1] := Span(0, 0)]
  }

  /** Clearing leaves `[0, 0]` at the tiles of `cells` and every other span as it was. */
  lemma {:induction false} ClearSpansAt(m: map<IVec2, Span>, cells: seq<IVec2>, c: IVec2)
    ensures SpanAt(ClearSpans(m, cells), c) == if c in cells then Span(0, 0) else SpanAt(m, c)
  {
    if cells != [] {
      var init := cells[..|cells| - 1];
      assert cells == init + [cells[|cells| - 1]];
      ClearSpansAt(m, init, c);
    }
  }

  /** Tables over smaller buffers are tables over larger ones. */
  lemma TablesOkMono(vs: map<IVec2, Span>, ix: map<IVec2, Span>, n: nat, m: nat, n': nat, m': nat)
    requires TablesOk(vs, ix, n, m) && n <= n' && m <= m'
    ensures TablesOk(vs, ix, n', m')
  {
  }

  /** Clearing the spans of some tiles in both tables keeps them well formed. */
  lemma {:induction false} ClearSpansOk(vs: map<IVec2, Span>, ix: map<IVec2, Span>, cells: seq<IVec2>, n: nat, m: nat)
    requires TablesOk(vs, ix, n, m)
    ensures TablesOk(ClearSpans(vs, cells), ClearSpans(ix, cells), n, m)
  {
    if cells != [] {
      ClearSpansOk(vs, ix, cells[..|cells| - 1], n, m);
    }
  }

  /** A slot covered by a tile's index span lies inside the index buffer the table describes. */
  lemma {:induction false} CoveredBelow(vs: map<IVec2, Span>, ix: map<IVec2, Span>, cells: seq<IVec2>, n: nat, m: nat, k: int)
    requires TablesOk(vs, ix, n, m) && Covered(ix, cells, k)
    ensures k < m
  {
    var init := cells[..|cells| - 1];
    if Covered(ix, init, k) {
      CoveredBelow(vs, ix, init, n, m, k);
    }
  }

  /** The test of `merge_quads` for one tile: exactly four vertices, all at height z. */
  predicate CellFlat(vs: map<IVec2, Span>, ps: seq<Vec3>, c: IVec2, z: real) {
    var sp := SpanAt(vs, c);
    sp.end == sp.start + 4 && sp.end <= |ps| && forall k | sp.start <= k < sp.end :: ps[k].z == z
  }

  /** Every tile of the block passes the test at the same height z. */
  predicate BlockFlat(vs: map<IVec2, Span>, ps: seq<Vec3>, cells: seq<IVec2>, z: real) {
    forall j | 0 <= j < |cells| :: CellFlat(vs, ps, cells[j], z)
  }

  /** `apply_scale` multiplies x and y by a non-zero constant, so distinct vertices stay distinct. */
  lemma ScaledDistinct(ps: seq<Vec3>, ps': seq<Vec3>, ns: seq<Vec3>, cs: seq<Vec4>)
    requires |ns| == |ps| && |cs| == |ps| && |ps'| == |ps|
    requires forall k | 0 <= k < |ps| :: ps'[k] == Moved(MoveScale(TileSize), ps[k])
    requires Distinct(VertexTable(ps, ns, cs))
    ensures Distinct(VertexTable(ps', ns, cs))
  {
    var t, t' := VertexTable(ps, ns, cs), VertexTable(ps', ns, cs);
    forall i, j | 0 <= i < j < |t'| ensures t'[i] != t'[j] {
      assert t[i] != t[j];
      if ps'[i] == ps'[j] {
        assert ps[i].x * TileSize == ps[j].x * TileSize && ps[i].y * TileSize == ps[j].y * TileSize;
        assert ps[i] == ps[j];
      }
    }
  }

  // ---------------------------------------------------------------------
  // merge_quads over every block of one size

  /** The blocks of the same size are apart: a tile lies in the block of one origin only. */
  /** A multiple a of size is the floor, to a multiple of size, of every x in [a, a + size). */
  lemma FloorToMultiple(a: int, x: int, size: int)
    requires size > 0 && a % size == 0 && a <= x < a + size
    ensures a == x / size * size
  {
    var q := a / size;
    assert a == q * size + a % size;
    DivModUnique(x, size, q, x - a);
  }

  lemma BlockOrigin(o: IVec2, size: nat, c: IVec2)
    requires size > 0 && o.x % size == 0 && o.y % size == 0
    requires c in BlockCells(o, size)
    ensures o.x == c.x / size * size && o.y == c.y / size * size
  {
    var r := BlockCells(o, size);
    var k :| 0 <= k < |r| && r[k] == c;
    FloorToMultiple(o.x, c.x, size);
    FloorToMultiple(o.y, c.y, size);
  }

  lemma OriginsInjective(size: nat, i: nat, j: nat)
    requires size > 0 && i < |Origins(ChunkTiles, size)| && j < |Origins(ChunkTiles, size)|
    ensures Origins(ChunkTiles, size)[i] == Origins(ChunkTiles, size)[j] ==> i == j
  {
    var n := Steps(ChunkTiles, size);
    var o := Origins(ChunkTiles, size);
    assert o[i] == IVec2(i / n * size, i % n * size) && o[j] == IVec2(j / n * size, j % n * size);
    RowMajorCell(n, n, i);
    RowMajorCell(n, n, j);
    if o[i] == o[j] {
      DivModUnique(i / n * size, size, i / n, 0);
      DivModUnique(j / n * size, size, j / n, 0);
      DivModUnique(i % n * size, size, i % n, 0);
      DivModUnique(j % n * size, size, j % n, 0);
    }
  }

  /** A tile in the blocks of two origins of one size belongs to one origin. */
  lemma SharedTile(size: nat, i: nat, j: nat, c: IVec2)
    requires size > 0 && i < |Origins(ChunkTiles, size)| && j < |Origins(ChunkTiles, size)|
    requires c in BlockCells(Origins(ChunkTiles, size)[i], size) && c in BlockCells(Origins(ChunkTiles, size)[j], size)
    ensures i == j
  {
    var o := Origins(ChunkTiles, size);
    BlockOrigin(o[i], size, c);
    BlockOrigin(o[j], size, c);
    OriginsInjective(size, i, j);
  }

  /** How many of the blocks were merged. */
  function Merged(zs: seq<Option<real>>): (r: nat)
    ensures r <= |zs|
  {
    if zs == [] then 0 else Merged(zs[..|zs| - 1]) + (if zs[|zs| - 1].Some? then 1 else 0)
  }

  /** The vertices appended for the merged blocks, in the order of their origins. */
  function MergedCorners(origins: seq<IVec2>, zs: seq<Option<real>>, size: nat): (r: seq<Vec3>)
    requires |zs| <= |origins|
    ensures |r| == 4 * Merged(zs)
  {
    if zs == [] then []
    else
      var i := |zs| - 1;
      MergedCorners(origins, zs[..i], size) + (if zs[i].Some? then QuadCorners(origins[i], size, zs[i].value) else [])
  }

  /** The indices appended for the merged blocks: two triangles over each block's four new vertices, counted from n. */
  function MergedIndices(n: nat, zs: seq<Option<real>>): (r: seq<nat>)
    ensures |r| == 6 * Merged(zs)
  {
    if zs == [] then []
    else
      var i := |zs| - 1;
      MergedIndices(n, zs[..i]) + (if zs[i].Some? then QuadIndices(n + 4 * Merged(zs[..i])) else [])
  }

  /** Every appended index names one of the appended vertices. */
  lemma {:induction false} MergedIndicesRange(n: nat, zs: seq<Option<real>>)
    ensures forall k | 0 <= k < |MergedIndices(n, zs)| :: n <= MergedIndices(n, zs)[k] < n + 4 * Merged(zs)
  {
    if zs != [] {
      MergedIndicesRange(n, zs[..|zs| - 1]);
    }
  }

  /** A span table after the spans of the merged blocks have been cleared, one block after the other. */
  function ClearMerged(m: map<IVec2, Span>, origins: seq<IVec2>, zs: seq<Option<real>>, size: nat): map<IVec2, Span>
    requires |zs| <= |origins|
  {
    if zs == [] then m
    else
      var i := |zs| - 1;
      var r := ClearMerged(m, origins, zs[..i], size);
      if zs[i].Some? then ClearSpans(r, BlockCells(origins[i], size)) else r
  }

  /** A tile outside every block so far keeps its span. */
  lemma {:induction false} ClearMergedAt(m: map<IVec2, Span>, origins: seq<IVec2>, zs: seq<Option<real>>, size: nat, c: IVec2)
    requires |zs| <= |origins|
    requires forall j | 0 <= j < |zs| :: c !in BlockCells(origins[j], size)
    ensures SpanAt(ClearMerged(m, origins, zs, size), c) == SpanAt(m, c)
  {
    if zs != [] {
      var i := |zs| - 1;
      ClearMergedAt(m, origins, zs[..i], size, c);
      ClearSpansAt(ClearMerged(m, origins, zs[..i], size), BlockCells(origins[i], size), c);
    }
  }

  /** Slot k lies in the index span of a tile of a merged block. */
  predicate RejectedBy(ix: map<IVec2, Span>, origins: seq<IVec2>, zs: seq<Option<real>>, size: nat, k: int)
    requires |zs| <= |origins|
  {
    |zs| > 0 &&
    (RejectedBy(ix, origins, zs[..|zs| - 1], size, k) ||
     (zs[|zs| - 1].Some? && Covered(ix, BlockCells(origins[|zs| - 1], size), k)))
  }

  lemma {:induction false} RejectedByIff(ix: map<IVec2, Span>, origins: seq<IVec2>, zs: seq<Option<real>>, size: nat, k: int)
    requires |zs| <= |origins|
    ensures RejectedBy(ix, origins, zs, size, k) <==>
      exists i | 0 <= i < |zs| :: zs[i].Some? && Covered(ix, BlockCells(origins[i], size), k)
  {
    if zs != [] {
      var init := zs[..|zs| - 1];
      RejectedByIff(ix, origins, init, size, k);
      if RejectedBy(ix, origins, init, size, k) {
        var i :| 0 <= i < |init| && init[i].Some? && Covered(ix, BlockCells(origins[i], size), k);
        assert zs[i] == init[i];
      }
      if exists i | 0 <= i < |zs| :: zs[i].Some? && Covered(ix, BlockCells(origins[i], size), k) {
        var i :| 0 <= i < |zs| && zs[i].Some? && Covered(ix, BlockCells(origins[i], size), k);
        if i < |init| {
          assert init[i] == zs[i];
        }
      }
    }
  }

  /** Slots that no tile's span covers agree in both tables when the tiles' spans agree. */
  lemma {:induction false} CoveredFrame(ix: map<IVec2, Span>, ix0: map<IVec2, Span>, cells: seq<IVec2>, k: int)
    requires forall c | c in cells :: SpanAt(ix, c) == SpanAt(ix0, c)
    ensures Covered(ix, cells, k) == Covered(ix0, cells, k)
  {
    if cells != [] {
      var init := cells[..|cells| - 1];
      assert forall c | c in init :: c in cells;
      CoveredFrame(ix, ix0, init, k);
    }
  }

  /** The flatness test sees the same answer on a table whose spans agree over later, longer positions. */
  lemma BlockFlatFrame(vs0: map<IVec2, Span>, ix0: map<IVec2, Span>, p0: seq<Vec3>, m: nat,
                       vs: map<IVec2, Span>, ps: seq<Vec3>, cells: seq<IVec2>, z: real)
    requires TablesOk(vs0, ix0, |p0|, m) && p0 <= ps
    requires forall c | c in cells :: SpanAt(vs, c) == SpanAt(vs0, c)
    ensures BlockFlat(vs, ps, cells, z) <==> BlockFlat(vs0, p0, cells, z)
  {
    forall j | 0 <= j < |cells| ensures CellFlat(vs, ps, cells[j], z) <==> CellFlat(vs0, p0, cells[j], z) {
      var sp := SpanAt(vs0, cells[j]);
      assert sp.end == sp.start + 4 ==> sp.end <= |p0|;
      assert forall k | 0 <= k < |p0| :: ps[k] == p0[k];
    }
  }

  /** The verdict on each block so far, read against the tables and positions as they were before the pass. */
  ghost predicate BlocksJudged(vs0: map<IVec2, Span>, p0: seq<Vec3>, origins: seq<IVec2>, zs: seq<Option<real>>, size: nat)
    requires |zs| <= |origins|
  {
    (forall i | 0 <= i < |zs| && zs[i].Some? :: BlockFlat(vs0, p0, BlockCells(origins[i], size), zs[i].value)) &&
    (forall i, z | 0 <= i < |zs| && zs[i].None? :: !BlockFlat(vs0, p0, BlockCells(origins[i], size), z))
  }

  /**
   * The state of `merge_quads` after the blocks judged in zs: their
   * corners and quads appended in order, the spans of the merged ones
   * cleared, and exactly the slots they cover rejected.
   */
  ghost predicate MergedSoFar(b0: Buffers, vs0: map<IVec2, Span>, ix0: map<IVec2, Span>, origins: seq<IVec2>,
                              zs: seq<Option<real>>, size: nat, b: Buffers, vs: map<IVec2, Span>, ix: map<IVec2, Span>)
    requires |zs| <= |origins|
  {
    vs == ClearMerged(vs0, origins, zs, size) && ix == ClearMerged(ix0, origins, zs, size) &&
    b.positions == b0.positions + MergedCorners(origins, zs, size) &&
    b.normals == b0.normals + seq(4 * Merged(zs), _ => UnitZ) &&
    b.colors == b0.colors + seq(4 * Merged(zs), _ => ZeroVec4) &&
    |b.indices| == |b0.indices| + 6 * Merged(zs) &&
    b.indices[|b0.indices|..] == MergedIndices(|b0.positions|, zs) &&
    (forall k | 0 <= k < |b0.indices| :: b.indices[k] == if RejectedBy(ix0, origins, zs, size, k) then U32Max else b0.indices[k]) &&
    BlocksJudged(vs0, b0.positions, origins, zs, size)
  }

  /** The next block has not been touched by the earlier ones. */
  lemma NextBlockUntouched(vs0: map<IVec2, Span>, ix0: map<IVec2, Span>, size: nat, zs: seq<Option<real>>)
    requires size > 0 && |zs| < |Origins(ChunkTiles, size)|
    ensures forall c | c in BlockCells(Origins(ChunkTiles, size)[|zs|], size) ::
      SpanAt(ClearMerged(vs0, Origins(ChunkTiles, size), zs, size), c) == SpanAt(vs0, c) &&
      SpanAt(ClearMerged(ix0, Origins(ChunkTiles, size), zs, size), c) == SpanAt(ix0, c)
  {
    var o := Origins(ChunkTiles, size);
    forall c | c in BlockCells(o[|zs|], size)
      ensures SpanAt(ClearMerged(vs0, o, zs, size), c) == SpanAt(vs0, c) && SpanAt(ClearMerged(ix0, o, zs, size), c) == SpanAt(ix0, c)
    {
      forall j | 0 <= j < |zs| ensures c !in BlockCells(o[j], size) {
        if c in BlockCells(o[j], size) {
          SharedTile(size, |zs|, j, c);
        }
      }
      ClearMergedAt(vs0, o, zs, size, c);
      ClearMergedAt(ix0, o, zs, size, c);
    }
  }

  /** The span tables after one more block. */
  lemma StepTables(vs0: map<IVec2, Span>, ix0: map<IVec2, Span>, origins: seq<IVec2>, zs: seq<Option<real>>, size: nat,
                   z: Option<real>, vs: map<IVec2, Span>, ix: map<IVec2, Span>, vs': map<IVec2, Span>, ix': map<IVec2, Span>)
    requires |zs| < |origins|
    requires vs == ClearMerged(vs0, origins, zs, size) && ix == ClearMerged(ix0, origins, zs, size)
    requires z.None? ==> vs' == vs && ix' == ix
    requires z.Some? ==> vs' == ClearSpans(vs, BlockCells(origins[|zs|], size)) && ix' == ClearSpans(ix, BlockCells(origins[|zs|], size))
    ensures vs' == ClearMerged(vs0, origins, zs + [z], size) && ix' == ClearMerged(ix0, origins, zs + [z], size)
  {
    assert (zs + [z])[..|zs|] == zs;
  }

  /** The vertex buffers after one more block. */
  lemma StepVertices(b0: Buffers, origins: seq<IVec2>, zs: seq<Option<real>>, size: nat, z: Option<real>, b: Buffers, b': Buffers)
    requires |zs| < |origins|
    requires b.positions == b0.positions + MergedCorners(origins, zs, size)
    requires b.normals == b0.normals + seq(4 * Merged(zs), _ => UnitZ)
    requires b.colors == b0.colors + seq(4 * Merged(zs), _ => ZeroVec4)
    requires z.None? ==> b' == b
    requires z.Some? ==>
      b'.positions == b.positions + QuadCorners(origins[|zs|], size, z.value) &&
      b'.normals == b.normals + [UnitZ, UnitZ, UnitZ, UnitZ] && b'.colors == b.colors + [ZeroVec4, ZeroVec4, ZeroVec4, ZeroVec4]
    ensures b'.positions == b0.positions + MergedCorners(origins, zs + [z], size)
    ensures b'.normals == b0.normals + seq(4 * Merged(zs + [z]), _ => UnitZ)
    ensures b'.colors == b0.colors + seq(4 * Merged(zs + [z]), _ => ZeroVec4)
  {
    var zs' := zs + [z];
    assert zs'[..|zs|] == zs;
    if z.Some? {
      assert seq(4 * Merged(zs'), _ => UnitZ) == seq(4 * Merged(zs), _ => UnitZ) + [UnitZ, UnitZ, UnitZ, UnitZ];
      assert seq(4 * Merged(zs'), _ => ZeroVec4) == seq(4 * Merged(zs), _ => ZeroVec4) + [ZeroVec4, ZeroVec4, ZeroVec4, ZeroVec4];
    }
  }

  /** The index buffer after one more block: the old slots kept or rejected, the block's quad appended. */
  lemma StepIndices(ids0: seq<nat>, n0: nat, ix0: map<IVec2, Span>, vs: map<IVec2, Span>, ix: map<IVec2, Span>, n: nat,
                    origins: seq<IVec2>, zs: seq<Option<real>>, size: nat, z: Option<real>, ids: seq<nat>, ids': seq<nat>)
    requires |zs| < |origins|
    requires TablesOk(vs, ix, n, |ids0|) && n == n0 + 4 * Merged(zs)
    requires forall c | c in BlockCells(origins[|zs|], size) :: SpanAt(ix, c) == SpanAt(ix0, c)
    requires |ids| == |ids0| + 6 * Merged(zs) && ids[|ids0|..] == MergedIndices(n0, zs)
    requires forall k | 0 <= k < |ids0| :: ids[k] == if RejectedBy(ix0, origins, zs, size, k) then U32Max else ids0[k]
    requires z.None? ==> ids' == ids
    requires z.Some? ==>
      |ids'| == |ids| + 6 && ids'[|ids|..] == QuadIndices(n) &&
      forall k | 0 <= k < |ids| :: ids'[k] == if Covered(ix, BlockCells(origins[|zs|], size), k) then U32Max else ids[k]
    ensures |ids'| == |ids0| + 6 * Merged(zs + [z]) && ids'[|ids0|..] == MergedIndices(n0, zs + [z])
    ensures forall k | 0 <= k < |ids0| :: ids'[k] == if RejectedBy(ix0, origins, zs + [z], size, k) then U32Max else ids0[k]
  {
    var zs' := zs + [z];
    var cells := BlockCells(origins[|zs|], size);
    assert zs'[..|zs|] == zs;
    if z.Some? {
      forall k | 0 <= k < |ids0|
        ensures ids'[k] == if RejectedBy(ix0, origins, zs', size, k) then U32Max else ids0[k]
      {
        CoveredFrame(ix, ix0, cells, k);
      }
      forall k | |ids0| <= k < |ids| ensures ids'[k] == ids[k] {
        if Covered(ix, cells, k) {
          CoveredBelow(vs, ix, cells, n, |ids0|, k);
        }
      }
      assert ids'[|ids0|..] == ids[|ids0|..] + QuadIndices(n);
    }
  }

  /** The verdicts after one more block, read against the tables before the pass. */
  lemma StepJudged(vs0: map<IVec2, Span>, ix0: map<IVec2, Span>, p0: seq<Vec3>, m: nat, origins: seq<IVec2>,
                   zs: seq<Option<real>>, size: nat, z: Option<real>, vs: map<IVec2, Span>, ps: seq<Vec3>)
    requires |zs| < |origins|
    requires TablesOk(vs0, ix0, |p0|, m) && p0 <= ps
    requires forall c | c in BlockCells(origins[|zs|], size) :: SpanAt(vs, c) == SpanAt(vs0, c)
    requires BlocksJudged(vs0, p0, origins, zs, size)
    requires z.None? ==> forall y :: !BlockFlat(vs, ps, BlockCells(origins[|zs|], size), y)
    requires z.Some? ==> BlockFlat(vs, ps, BlockCells(origins[|zs|], size), z.value)
    ensures BlocksJudged(vs0, p0, origins, zs + [z], size)
  {
    var cells := BlockCells(origins[|zs|], size);
    if z.Some? {
      BlockFlatFrame(vs0, ix0, p0, m, vs, ps, cells, z.value);
    } else {
      forall y ensures !BlockFlat(vs0, p0, cells, y) {
        BlockFlatFrame(vs0, ix0, p0, m, vs, ps, cells, y);
      }
    }
  }

  /** One block judged and, when flat, merged: the state after it is the state after one more block. */
  lemma MergedStep(b0: Buffers, vs0: map<IVec2, Span>, ix0: map<IVec2, Span>, size: nat, zs: seq<Option<real>>,
                   b: Buffers, vs: map<IVec2, Span>, ix: map<IVec2, Span>, z: Option<real>,
                   b': Buffers, vs': map<IVec2, Span>, ix': map<IVec2, Span>)
    requires size > 0 && |zs| < |Origins(ChunkTiles, size)|
    requires TablesOk(vs0, ix0, |b0.positions|, |b0.indices|)
    requires TablesOk(vs, ix, |b.positions|, |b0.indices|)
    requires MergedSoFar(b0, vs0, ix0, Origins(ChunkTiles, size), zs, size, b, vs, ix)
    requires z.None? ==> b' == b && vs' == vs && ix' == ix
    requires z.None? ==> forall y :: !BlockFlat(vs, b.positions, BlockCells(Origins(ChunkTiles, size)[|zs|], size), y)
    requires z.Some? ==> BlockFlat(vs, b.positions, BlockCells(Origins(ChunkTiles, size)[|zs|], size), z.value)
    requires z.Some? ==>
      b'.positions == b.positions + QuadCorners(Origins(ChunkTiles, size)[|zs|], size, z.value) &&
      b'.normals == b.normals + [UnitZ, UnitZ, UnitZ, UnitZ] && b'.colors == b.colors + [ZeroVec4, ZeroVec4, ZeroVec4, ZeroVec4] &&
      |b'.indices| == |b.indices| + 6 && b'.indices[|b.indices|..] == QuadIndices(|b.positions|) &&
      (forall k | 0 <= k < |b.indices| ::
        b'.indices[k] == if Covered(ix, BlockCells(Origins(ChunkTiles, size)[|zs|], size), k) then U32Max else b.indices[k]) &&
      ix' == ClearSpans(ix, BlockCells(Origins(ChunkTiles, size)[|zs|], size)) &&
      vs' == ClearSpans(vs, BlockCells(Origins(ChunkTiles, size)[|zs|], size))
    ensures MergedSoFar(b0, vs0, ix0, Origins(ChunkTiles, size), zs + [z], size, b', vs', ix')
  {
    var o := Origins(ChunkTiles, size);
    NextBlockUntouched(vs0, ix0, size, zs);
    StepTables(vs0, ix0, o, zs, size, z, vs, ix, vs', ix');
    StepVertices(b0, o, zs, size, z, b, b');
    StepIndices(b0.indices, |b0.positions|, ix0, vs, ix, |b.positions|, o, zs, size, z, b.indices, b'.indices);
    StepJudged(vs0, ix0, b0.positions, |b0.indices|, o, zs, size, z, vs, b.positions);
  }

  /** What the state after all blocks says, slot by slot. */
  lemma MergedDone(b0: Buffers, vs0: map<IVec2, Span>, ix0: map<IVec2, Span>, origins: seq<IVec2>,
                   zs: seq<Option<real>>, size: nat, b: Buffers, vs: map<IVec2, Span>, ix: map<IVec2, Span>)
    requires |zs| <= |origins| && MergedSoFar(b0, vs0, ix0, origins, zs, size, b, vs, ix)
    ensures forall k | 0 <= k < |b0.indices| ::
      b.indices[k] == if exists i | 0 <= i < |zs| :: zs[i].Some? && Covered(ix0, BlockCells(origins[i], size), k)
                      then U32Max else b0.indices[k]
    ensures forall k | |b0.indices| <= k < |b.indices| :: |b0.positions| <= b.indices[k] < |b.positions|
  {
    forall k | 0 <= k < |b0.indices| {
      RejectedByIff(ix0, origins, zs, size, k);
    }
    MergedIndicesRange(|b0.positions|, zs);
    forall k | |b0.indices| <= k < |b.indices| ensures |b0.positions| <= b.indices[k] < |b.positions| {
      assert b.indices[k] == MergedIndices(|b0.positions|, zs)[k - |b0.indices|];
    }
  }

  /** A pass over the index buffer that only rejects: each old slot keeps its index or holds `u32::MAX`; slots may be appended. */
  predicate OnlyRejects(a: seq<nat>, b: seq<nat>) {
    |a| <= |b| && forall k | 0 <= k < |a| :: b[k] == a[k] || b[k] == U32Max
  }

  lemma OnlyRejectsTrans(a: seq<nat>, b: seq<nat>, c: seq<nat>)
    requires OnlyRejects(a, b) && OnlyRejects(b, c)
    ensures OnlyRejects(a, c)
  {
  }

  /** The shape of `merge_quads`' index postcondition: every old slot is either rejected or kept. */
  lemma MergePassRejects(a: seq<nat>, b: seq<nat>)
    requires |a| <= |b|
    requires forall k | 0 <= k < |a| :: b[k] == U32Max || b[k] == a[k]
    ensures OnlyRejects(a, b)
  {
  }

  /** The per-tile tables of the generator (`cell_indices`, `cell_vertices`, `cell_walls`). */
  class MeshGenerator {
    var heightmap: GridValue<real>
    var positions: seq<Vec3>
    var normals: seq<Vec3>
    var colors: seq<Vec4>
    var indices: seq<nat>
    var cell: IVec2
    var cellFirstVertex: nat
    var cellFirstIndex: nat
    var cellIndices: map<IVec2, Span>
    var cellVertices: map<IVec2, Span>
    var cellWalls: map<IVec2, seq<nat>>
    var height: real
    var upHeight: real
    var mask: Mask
    var upMask: Mask
    var downMask: Mask
    var flipX: bool
    var flipY: bool
    var rotate: bool

    function Buf(): Buffers reads this {
      Buffers(positions, normals, colors, indices)
    }

    function CurrentFlags(): Flags reads this {
      Flags(flipX, flipY, rotate)
    }

    function CurrentLevel(): Level reads this {
      Level(height, upMask, downMask, CurrentFlags(), cellFirstVertex)
    }

    predicate Valid() reads this {
      Buf().Ok()
    }

    /** `MeshGenerator::new`: empty buffers and tables, everything else zero. */
    constructor (heightmap: GridValue<real>)
      ensures Valid()
      ensures this.heightmap == heightmap
      ensures positions == [] && normals == [] && colors == [] && indices == []
      ensures cellIndices == map[] && cellVertices == map[] && cellWalls == map[]
      ensures cell == Zero && cellFirstVertex == 0 && cellFirstIndex == 0
      ensures height == 0.0 && upHeight == 0.0 && mask == 0 && upMask == 0 && downMask == 0
      ensures !flipX && !flipY && !rotate
    {
      this.heightmap := heightmap;
      positions := [];
      normals := [];
      colors := [];
      indices := [];
      cell := Zero;
      cellFirstVertex := 0;
      cellFirstIndex := 0;
      cellIndices := map[];
      cellVertices := map[];
      cellWalls := map[];
      height := 0.0;
      upHeight := 0.0;
      mask := 0;
      upMask := 0;
      downMask := 0;
      flipX := false;
      flipY := false;
      rotate := false;
    }

    /**
     * `ms_transform_masks`: the three masks permuted by the current flags,
     * so a partition of the corners stays a partition.
     */
    method TransformMasks()
      modifies this`mask, this`upMask, this`downMask
      ensures mask == Transform(old(mask), CurrentFlags())
      ensures upMask == Transform(old(upMask), CurrentFlags()) && downMask == Transform(old(downMask), CurrentFlags())
      ensures Partition(old(mask), old(upMask), old(downMask)) ==> Partition(mask, upMask, downMask)
    {
      if Partition(mask, upMask, downMask) {
        TransformKeepsPartition(mask, upMask, downMask, CurrentFlags());
      }
      mask := Transform(mask, CurrentFlags());
      upMask := Transform(upMask, CurrentFlags());
      downMask := Transform(downMask, CurrentFlags());
    }

    /** A loop of `ms_transform_points` or `generate_cells`: every vertex from `start` on moved by m. */
    method MovePoints(start: nat, m: Move)
      requires start <= |positions|
      modifies this`positions
      ensures |positions| == old(|positions|)
      ensures forall k | 0 <= k < |positions| :: positions[k] == if k < start then old(positions[k]) else Moved(m, old(positions[k]))
    {
      ghost var before := positions;
      var k := start;
      while k < |positions|
        invariant start <= k <= |positions| == |before|
        invariant forall j | 0 <= j < |positions| :: positions[j] == if start <= j < k then Moved(m, before[j]) else before[j]
      {
        positions := positions[k := Moved(m, positions[k])];
        k := k + 1;
      }
    }

    /** The swap loop of `ms_transform_points`: the last two indices of every triangle from `start` on trade places. */
    method SwapIndices(start: nat)
      requires start <= |indices| && start % 3 == 0 && |indices| % 3 == 0
      modifies this`indices
      ensures indices == SwapTail(old(indices), start, true)
    {
      ghost var before := indices;
      var t := start;
      while t < |indices|
        invariant start <= t <= |indices| == |before| && t % 3 == 0
        invariant forall k | 0 <= k < |indices| :: indices[k] == if start <= k < t then before[SwapSlot(k)] else before[k]
      {
        SwapSlotsAt(t);
        indices := indices[t + 1 := indices[t + 2]][t + 2 := indices[t + 1]];
        t := t + 3;
      }
    }

    /**
     * `ms_transform_points`: the vertices drawn for the level move from the
     * canonical cell to their place, and when the move is a reflection the
     * level's triangles are reversed so they keep facing up.
     */
    method TransformPoints(startVertex: nat, startIndex: nat)
      requires startVertex <= |positions| && startIndex <= |indices| && startIndex % 3 == 0 && |indices| % 3 == 0
      modifies this`positions, this`indices
      ensures positions == PlaceTail(old(positions), startVertex, Flags(flipX, flipY, rotate))
      ensures indices == SwapTail(old(indices), startIndex, flipX != flipY)
    {
      ghost var p0 := positions;
      if flipX {
        MovePoints(startVertex, MoveFlipX);
      }
      ghost var p1 := positions;
      if flipY {
        MovePoints(startVertex, MoveFlipY);
      }
      ghost var p2 := positions;
      if rotate {
        MovePoints(startVertex, MoveRotate);
      }
      if flipX != flipY {
        SwapIndices(startIndex);
      } else {
        assert indices == SwapTail(indices, startIndex, false);
      }
      assert forall k | startVertex <= k < |positions| :: positions[k] == Place(p0[k], Flags(flipX, flipY, rotate)) by {
        forall k | startVertex <= k < |positions| ensures positions[k] == Place(p0[k], Flags(flipX, flipY, rotate)) {
          assert p1[k] == if flipX then Moved(MoveFlipX, p0[k]) else p0[k];
          assert p2[k] == if flipY then Moved(MoveFlipY, p1[k]) else p1[k];
        }
      }
    }

    /** The drawing calls of `ms_case_<c>` performed on the buffers and the current tile's wall list. */
    method MsCase(c: Mask)
      requires Valid() && cellFirstVertex <= |positions| && |positions| + LevelBudget < U32Max
      modifies this`positions, this`normals, this`colors, this`indices, this`cellWalls
      ensures var r := old(DrawShapes(Draw(Buf(), WallsAt(cellWalls, cell)), CurrentLevel(), CaseShapes(c, upMask, downMask)));
        Buf() == r.buf && cellWalls == old(cellWalls[cell := r.walls])
    {
      var r := DrawShapes(Draw(Buf(), WallsAt(cellWalls, cell)), CurrentLevel(), CaseShapes(c, upMask, downMask));
      positions, normals, colors, indices := r.buf.positions, r.buf.normals, r.buf.colors, r.buf.indices;
      cellWalls := cellWalls[cell := r.walls];
    }
  
    /**
     * The first half of `marching_squares`: the mask picks the flags that turn
     * it into one of the canonical cases 1, 3, 5, 7 and 15 (the `FlagsFor`
     * table is the source's chain of tests) and the masks are transformed.
     */
    method SelectCase()
      modifies this`mask, this`upMask, this`downMask, this`flipX, this`flipY, this`rotate
      ensures Flags(flipX, flipY, rotate) == FlagsFor(old(mask))
      ensures mask == Transform(old(mask), Flags(flipX, flipY, rotate))
      ensures upMask == Transform(old(upMask), Flags(flipX, flipY, rotate))
      ensures downMask == Transform(old(downMask), Flags(flipX, flipY, rotate))
      ensures 0 < old(mask) < 16 ==> IsCanonical(mask)
      ensures Partition(old(mask), old(upMask), old(downMask)) ==> Partition(mask, upMask, downMask)
    {
      flipX, flipY, rotate := false, false, false;
      var f := FlagsFor(mask);
      SelectedMasks(mask, upMask, downMask);
      flipX, flipY, rotate := f.flipX, f.flipY, f.rotate;
      if f != Flags(false, false, false) {
        TransformMasks();
      }
    }

    /**
     * The second half of `marching_squares`: the routine of the canonical
     * case is run in the canonical cell (`CaseShapes` is empty for any other
     * mask) and `ms_transform_points` moves what it drew into place.
     */
    method DrawLevel() returns (ghost drawn: Draw)
      requires Valid() && cellFirstVertex <= |positions| && |positions| + LevelBudget < U32Max
      modifies this`positions, this`normals, this`colors, this`indices, this`cellWalls
      ensures Valid()
      ensures drawn == old(DrawShapes(Draw(Buf(), WallsAt(cellWalls, cell)), CurrentLevel(), CaseShapes(mask, upMask, downMask)))
      ensures drawn.buf.Ok() && Extends(Draw(old(Buf()), WallsAt(old(cellWalls), cell)), drawn)
      ensures |drawn.buf.positions| <= old(|positions|) + LevelBudget
      ensures cellWalls == if old(IsCanonical(mask)) then old(cellWalls)[cell := drawn.walls] else old(cellWalls)
      ensures Buf() == Placed(drawn.buf, old(|positions|), old(|indices|), old(CurrentFlags()))
    {
      var startVertex := |positions|;
      var startIndex := |indices|;
      ghost var d0 := Draw(Buf(), WallsAt(cellWalls, cell));
      ghost var shapes := CaseShapes(mask, upMask, downMask);
      drawn := DrawShapes(d0, CurrentLevel(), shapes);
      assert drawn.buf.Ok() && Extends(d0, drawn) && |drawn.buf.positions| <= |d0.buf.positions| + LevelBudget;
      if IsCanonical(mask) {
        MsCase(mask);
      }
      ghost var mid := Buf();
      assert mid == drawn.buf;
      TransformPoints(startVertex, startIndex);
      assert Buf() == Placed(mid, startVertex, startIndex, Flags(flipX, flipY, rotate));
      SwapTailOk(mid.indices, startIndex, flipX != flipY, |positions|);
    }

    /**
     * `marching_squares`: `SelectCase` followed by `DrawLevel`.  `drawn` is
     * the level as drawn in the canonical cell; only appends happen, within
     * the level budget, and the new part is then moved into place.
     */
    method MarchingSquares() returns (ghost drawn: Draw)
      requires Valid() && cellFirstVertex <= |positions| && |positions| + LevelBudget < U32Max
      modifies this`positions, this`normals, this`colors, this`indices, this`cellWalls
      modifies this`mask, this`upMask, this`downMask, this`flipX, this`flipY, this`rotate
      ensures Valid()
      ensures Flags(flipX, flipY, rotate) == FlagsFor(old(mask))
      ensures mask == Transform(old(mask), Flags(flipX, flipY, rotate))
      ensures upMask == Transform(old(upMask), Flags(flipX, flipY, rotate))
      ensures downMask == Transform(old(downMask), Flags(flipX, flipY, rotate))
      ensures 0 < old(mask) < 16 ==> IsCanonical(mask)
      ensures Partition(old(mask), old(upMask), old(downMask)) ==> Partition(mask, upMask, downMask)
      ensures drawn.buf.Ok() && Extends(Draw(old(Buf()), WallsAt(old(cellWalls), cell)), drawn)
      ensures |drawn.buf.positions| <= old(|positions|) + LevelBudget
      ensures cellWalls == if IsCanonical(mask) then old(cellWalls)[cell := drawn.walls] else old(cellWalls)
      ensures Buf() == Placed(drawn.buf, old(|positions|), old(|indices|), Flags(flipX, flipY, rotate))
    {
      SelectCase();
      drawn := DrawLevel();
    }

    /**
     * One turn of the level loop of `generate_cell`: the level's masks and
     * heights are set and the level is drawn by `marching_squares`; the
     * buffers only grow, within the level budget, and only the current
     * tile's wall list changes.
     */
    method DrawCornerLevel(m: Mask, u: Mask, d: Mask, h: real, up: real)
      requires Valid() && WallsOk(cellWalls, |positions|)
      requires cellFirstVertex <= |positions| && |positions| + LevelBudget < U32Max
      modifies this`positions, this`normals, this`colors, this`indices, this`cellWalls
      modifies this`height, this`upHeight, this`mask, this`upMask, this`downMask, this`flipX, this`flipY, this`rotate
      ensures Valid() && Grows(old(Buf()), Buf()) && |positions| <= old(|positions|) + LevelBudget
      ensures height == h && upHeight == up
      ensures WallsOk(cellWalls, |positions|)
      ensures forall c | c != cell :: WallsAt(cellWalls, c) == WallsAt(old(cellWalls), c)
    {
      mask, upMask, downMask := m, u, d;
      height, upHeight := h, up;
      ghost var before := Buf();
      ghost var walls := cellWalls;
      ghost var drawn := MarchingSquares();
      LevelGrows(before, walls, cell, drawn, CurrentFlags(), IsCanonical(mask), Buf(), cellWalls);
    }

    /**
     * `generate_cell`: the corner heights of the tile, quantised and sorted
     * highest first; each distinct height is drawn once as a level, top
     * down, with the masks of the corners at, above and below it and the
     * height of the level above.  `levels` and `ups` are the heights and up
     * heights of the levels drawn.
     */
    method GenerateCell(pos: IVec2) returns (ghost levels: seq<real>, ghost ups: seq<real>)
      requires Valid() && CornersInside(heightmap, pos) && WallsOk(cellWalls, |positions|)
      requires cellFirstVertex <= |positions| && |positions| + CellBudget < U32Max
      modifies this`positions, this`normals, this`colors, this`indices, this`cellWalls
      modifies this`height, this`upHeight, this`mask, this`upMask, this`downMask, this`flipX, this`flipY, this`rotate
      ensures Valid() && Grows(old(Buf()), Buf()) && |positions| <= old(|positions|) + CellBudget
      ensures LevelsOf(Corners(heightmap, pos), levels, ups)
      ensures WallsOk(cellWalls, |positions|)
      ensures forall c | c != cell :: WallsAt(cellWalls, c) == WallsAt(old(cellWalls), c)
    {
      var corners := Corners(heightmap, pos);
      var heights := SortDescending(corners);
      assert |heights| == |multiset(heights)| == 4;
      ghost var last;
      levels, ups, last := DrawLevels(corners, heights);
      VisitedEnd(corners, heights, levels, ups, last);
    }

    /** The level loop of `generate_cell` over the sorted corner heights. */
    method DrawLevels(corners: seq<real>, heights: seq<real>) returns (ghost levels: seq<real>, ghost ups: seq<real>, ghost last: real)
      requires |corners| == 4 && |heights| == 4 && Descending(heights)
      requires Valid() && WallsOk(cellWalls, |positions|)
      requires cellFirstVertex <= |positions| && |positions| + CellBudget < U32Max
      modifies this`positions, this`normals, this`colors, this`indices, this`cellWalls
      modifies this`height, this`upHeight, this`mask, this`upMask, this`downMask, this`flipX, this`flipY, this`rotate
      ensures Valid() && Grows(old(Buf()), Buf()) && |positions| <= old(|positions|) + CellBudget
      ensures VisitedUpTo(heights, |heights|, levels, ups, last)
      ensures WallsOk(cellWalls, |positions|)
      ensures forall c | c != cell :: WallsAt(cellWalls, c) == WallsAt(old(cellWalls), c)
    {
      var i := 0;
      var up := heights[0] + 100.0;
      levels, ups := [], [];
      VisitedStart(heights);
      ghost var b0 := Buf();
      ghost var w0 := cellWalls;
      while i < |heights|
        invariant i <= |heights| && |levels| <= i && VisitedUpTo(heights, i, levels, ups, up)
        invariant Valid() && Grows(b0, Buf()) && |positions| <= |b0.positions| + |levels| * LevelBudget
        invariant cellFirstVertex <= |positions| && WallsOk(cellWalls, |positions|)
        invariant forall c | c != cell :: WallsAt(cellWalls, c) == WallsAt(w0, c)
      {
        var h, next := NextLevel(heights, i);
        VisitedStep(heights, i, next, h, levels, ups, up);
        ghost var before := Buf();
        DrawCornerLevel(LevelMask(corners, h), UpMask(corners, h), DownMask(corners, h), h, up);
        GrowsTrans(b0, before, Buf());
        levels, ups := levels + [h], ups + [up];
        up := h;
        i := next;
      }
      last := up;
    }

    /**
     * The body of the tile loop of `generate_cells`: the tile is drawn, its
     * new vertices are shifted to the tile's place and the spans of what it
     * drew are recorded.  Cell normals and vertex snapping are not modelled.
     */
    method GenerateTile(x: int, y: int)
      requires Valid() && CornersInside(heightmap, IVec2(x, y)) && WallsOk(cellWalls, |positions|)
      requires TablesOk(cellVertices, cellIndices, |positions|, |indices|) && OwnVertices(cellVertices, cellIndices, indices)
      requires |positions| + CellBudget < U32Max
      modifies this`positions, this`normals, this`colors, this`indices, this`cellWalls
      modifies this`height, this`upHeight, this`mask, this`upMask, this`downMask, this`flipX, this`flipY, this`rotate
      modifies this`cell, this`cellFirstVertex, this`cellFirstIndex, this`cellVertices, this`cellIndices
      ensures Valid() && Grows(old(Buf()), Buf()) && |positions| <= old(|positions|) + CellBudget
      ensures cell == IVec2(x, y) && cellFirstVertex == old(|positions|) && cellFirstIndex == old(|indices|)
      ensures WallsOk(cellWalls, |positions|)
      ensures cellVertices == old(cellVertices)[IVec2(x, y) := Span(old(|positions|), |positions|)]
      ensures cellIndices == old(cellIndices)[IVec2(x, y) := Span(old(|indices|), |indices|)]
      ensures cellVertices.Keys == old(cellVertices.Keys) + {IVec2(x, y)}
      ensures TablesOk(cellVertices, cellIndices, |positions|, |indices|) && OwnVertices(cellVertices, cellIndices, indices)
    {
      ghost var b0 := Buf();
      ghost var _, _ := DrawTile(x, y);
      RecordSpans(b0);
    }

    /** Drawing one tile: `generate_cell` and the shift of its vertices to the tile's place. */
    method DrawTile(x: int, y: int) returns (ghost levels: seq<real>, ghost ups: seq<real>)
      requires Valid() && CornersInside(heightmap, IVec2(x, y)) && WallsOk(cellWalls, |positions|)
      requires |positions| + CellBudget < U32Max
      modifies this`positions, this`normals, this`colors, this`indices, this`cellWalls
      modifies this`height, this`upHeight, this`mask, this`upMask, this`downMask, this`flipX, this`flipY, this`rotate
      modifies this`cell, this`cellFirstVertex, this`cellFirstIndex
      ensures Valid() && Grows(old(Buf()), Buf()) && |positions| <= old(|positions|) + CellBudget
      ensures cell == IVec2(x, y) && cellFirstVertex == old(|positions|) && cellFirstIndex == old(|indices|)
      ensures LevelsOf(Corners(heightmap, IVec2(x, y)), levels, ups)
      ensures WallsOk(cellWalls, |positions|)
      ensures forall c | c != IVec2(x, y) :: WallsAt(cellWalls, c) == WallsAt(old(cellWalls), c)
    {
      cell := IVec2(x, y);
      cellFirstVertex := |positions|;
      cellFirstIndex := |indices|;
      ghost var b0 := Buf();
      levels, ups := GenerateCell(IVec2(x, y));
      ghost var b1 := Buf();
      MovePoints(cellFirstVertex, MoveBy(x, y));
      assert positions[..|b0.positions|] == b1.positions[..|b0.positions|];
      GrowsMoved(b0, b1, positions);
    }

    /** `cell_indices[cell]` and `cell_vertices[cell]` set to what the tile drew. */
    method RecordSpans(ghost b0: Buffers)
      requires Valid() && Grows(b0, Buf()) && cellFirstVertex == |b0.positions| && cellFirstIndex == |b0.indices|
      requires TablesOk(cellVertices, cellIndices, |b0.positions|, |b0.indices|) && OwnVertices(cellVertices, cellIndices, b0.indices)
      requires |b0.indices| % 3 == 0
      modifies this`cellVertices, this`cellIndices
      ensures cellVertices == old(cellVertices)[cell := Span(cellFirstVertex, |positions|)]
      ensures cellIndices == old(cellIndices)[cell := Span(cellFirstIndex, |indices|)]
      ensures TablesOk(cellVertices, cellIndices, |positions|, |indices|) && OwnVertices(cellVertices, cellIndices, indices)
    {
      TablesAdd(cellVertices, cellIndices, b0, Buf(), cell);
      cellIndices := cellIndices[cell := Span(cellFirstIndex, |indices|)];
      cellVertices := cellVertices[cell := Span(cellFirstVertex, |positions|)];
    }

    /**
     * What the tile loops keep: valid buffers grown from `b0` by at most
     * `budget` vertices, consistent span tables and wall lists.
     */
    ghost predicate DrawnSince(b0: Buffers, budget: nat) reads this {
      Valid() && Grows(b0, Buf()) && |positions| <= |b0.positions| + budget &&
      TablesOk(cellVertices, cellIndices, |positions|, |indices|) && OwnVertices(cellVertices, cellIndices, indices) &&
      WallsOk(cellWalls, |positions|)
    }

    /** One turn of the tile loop of `generate_cells`: tile (x, y) drawn and recorded. */
    method RowTile(x: int, y: int, ghost b0: Buffers, ghost budget: nat)
      requires 0 <= x < ChunkTiles as int && 0 <= y < ChunkTiles as int && CoversChunk(heightmap)
      requires DrawnSince(b0, budget) && |b0.positions| + budget + CellBudget < U32Max
      modifies this`positions, this`normals, this`colors, this`indices, this`cellWalls
      modifies this`height, this`upHeight, this`mask, this`upMask, this`downMask, this`flipX, this`flipY, this`rotate
      modifies this`cell, this`cellFirstVertex, this`cellFirstIndex, this`cellVertices, this`cellIndices
      ensures DrawnSince(b0, budget + CellBudget)
      ensures cellVertices.Keys == old(cellVertices.Keys) + {IVec2(x, y)}
    {
      assert InChunk(IVec2(x, y));
      ghost var before := Buf();
      GenerateTile(x, y);
      GrowsTrans(b0, before, Buf());
    }

    /** One row of `generate_cells`: tiles (0, y) to (31, y) in order. */
    method GenerateRow(y: int)
      requires 0 <= y < ChunkTiles as int && CoversChunk(heightmap)
      requires Valid() && WallsOk(cellWalls, |positions|)
      requires TablesOk(cellVertices, cellIndices, |positions|, |indices|) && OwnVertices(cellVertices, cellIndices, indices)
      requires |positions| + RowBudget < U32Max
      modifies this
      ensures heightmap == old(heightmap)
      ensures Valid() && Grows(old(Buf()), Buf()) && |positions| <= old(|positions|) + RowBudget
      ensures TablesOk(cellVertices, cellIndices, |positions|, |indices|) && OwnVertices(cellVertices, cellIndices, indices)
      ensures WallsOk(cellWalls, |positions|)
      ensures old(cellVertices.Keys) <= cellVertices.Keys
      ensures forall x | 0 <= x < ChunkTiles as int :: IVec2(x, y) in cellVertices
    {
      ghost var b0 := Buf();
      ghost var keys0 := cellVertices.Keys;
      var x := 0;
      ghost var budget: nat := 0;
      while x < ChunkTiles as int
        invariant 0 <= x <= ChunkTiles as int && heightmap == old(heightmap)
        invariant budget == x * CellBudget && DrawnSince(b0, budget)
        invariant keys0 <= cellVertices.Keys
        invariant forall x' | 0 <= x' < x :: IVec2(x', y) in cellVertices
      {
        MulMono(x + 1, ChunkTiles, CellBudget);
        assert (x + 1) * CellBudget == budget + CellBudget;
        ghost var keys := cellVertices.Keys;
        RowTile(x, y, b0, budget);
        assert forall x' | 0 <= x' < x + 1 :: IVec2(x', y) in keys + {IVec2(x, y)};
        x, budget := x + 1, budget + CellBudget;
      }
    }

    /**
     * `generate_cells`: every tile of the chunk drawn, row by row; every
     * tile ends with a span in both tables, and each tile's triangles name
     * only its own vertices.
     */
    /** One row of `GenerateCells`: the row's tiles join the table and the drawing stays within budget. */
    method RowStep(y: int, ghost b0: Buffers, ghost budget: nat)
      requires 0 <= y < ChunkTiles as int && CoversChunk(heightmap)
      requires DrawnSince(b0, budget) && |b0.positions| + budget + RowBudget < U32Max
      modifies this
      ensures heightmap == old(heightmap)
      ensures DrawnSince(b0, budget + RowBudget)
      ensures old(cellVertices.Keys) <= cellVertices.Keys
      ensures forall c | InChunk(c) && c.y == y :: c in cellVertices
    {
      ghost var before := Buf();
      GenerateRow(y);
      GrowsTrans(b0, before, Buf());
      forall c | InChunk(c) && c.y == y ensures c in cellVertices {
        assert c == IVec2(c.x, y);
      }
    }

    method GenerateCells()
      requires CoversChunk(heightmap)
      requires Valid() && WallsOk(cellWalls, |positions|)
      requires TablesOk(cellVertices, cellIndices, |positions|, |indices|) && OwnVertices(cellVertices, cellIndices, indices)
      requires |positions| + ChunkTiles * RowBudget < U32Max
      modifies this
      ensures heightmap == old(heightmap)
      ensures Valid() && Grows(old(Buf()), Buf())
      ensures TablesOk(cellVertices, cellIndices, |positions|, |indices|) && OwnVertices(cellVertices, cellIndices, indices)
      ensures WallsOk(cellWalls, |positions|)
      ensures forall c | InChunk(c) :: c in cellVertices && c in cellIndices
      ensures |positions| <= old(|positions|) + ChunkTiles * RowBudget
    {
      ghost var b0 := Buf();
      var y := 0;
      ghost var budget: nat := 0;
      while y < ChunkTiles as int
        invariant 0 <= y <= ChunkTiles as int && heightmap == old(heightmap)
        invariant budget == y * RowBudget && DrawnSince(b0, budget)
        invariant forall c | InChunk(c) && c.y < y :: c in cellVertices
      {
        MulMono(y + 1, ChunkTiles, RowBudget);
        assert (y + 1) * RowBudget == budget + RowBudget;
        RowStep(y, b0, budget);
        y, budget := y + 1, budget + RowBudget;
      }
    }

    /**
     * The test loop of `merge_quads` over the tiles of a block: the height
     * of the first tile when every tile has exactly four vertices, all at
     * that one height; `None` as soon as a tile breaks the rule.
     */
    method GroupLevel(cells: seq<IVec2>) returns (groupZ: Option<real>)
      requires TablesOk(cellVertices, cellIndices, |positions|, |indices|)
      ensures groupZ.Some? ==> |cells| > 0 && BlockFlat(cellVertices, positions, cells, groupZ.value)
      ensures groupZ.None? ==> |cells| == 0 || forall z :: !BlockFlat(cellVertices, positions, cells, z)
    {
      groupZ := None;
      var j := 0;
      while j < |cells|
        invariant 0 <= j <= |cells|
        invariant groupZ.None? <==> j == 0
        invariant groupZ.Some? ==> forall i | 0 <= i < j :: CellFlat(cellVertices, positions, cells[i], groupZ.value)
      {
        var sp := SpanAt(cellVertices, cells[j]);
        if sp.end - sp.start != 4 {
          forall z ensures !BlockFlat(cellVertices, positions, cells, z) {
            assert !CellFlat(cellVertices, positions, cells[j], z);
          }
          return None;
        }
        var z := positions[sp.start].z;
        if groupZ.Some? && z != groupZ.value {
          forall z' ensures !BlockFlat(cellVertices, positions, cells, z') {
            var s0 := SpanAt(cellVertices, cells[0]);
            assert CellFlat(cellVertices, positions, cells[0], groupZ.value);
            assert positions[s0.start].z == groupZ.value;
            assert CellFlat(cellVertices, positions, cells[0], z') ==> positions[s0.start].z == z';
            assert CellFlat(cellVertices, positions, cells[j], z') ==> positions[sp.start].z == z';
          }
          return None;
        }
        groupZ := Some(z);
        if exists k | sp.start + 1 <= k < sp.end :: positions[k].z != z {
          forall z' ensures !BlockFlat(cellVertices, positions, cells, z') {
            assert !CellFlat(cellVertices, positions, cells[j], z');
          }
          return None;
        }
        j := j + 1;
      }
    }

    /** The innermost loop of `merge_quads`: every index of the span becomes `u32::MAX`. */
    method RejectSpan(sp: Span)
      requires sp.start <= sp.end <= |indices|
      modifies this`indices
      ensures |indices| == old(|indices|)
      ensures forall k | 0 <= k < |indices| :: indices[k] == if InSpan(sp, k) then U32Max else old(indices[k])
    {
      var k := sp.start;
      while k < sp.end
        invariant sp.start <= k <= sp.end && |indices| == old(|indices|)
        invariant forall j | 0 <= j < |indices| :: indices[j] == if sp.start <= j < k then U32Max else old(indices[j])
      {
        indices := indices[k := U32Max];
        k := k + 1;
      }
    }

    /**
     * The rejection loop of `merge_quads`: the indices of every tile of the
     * block become `u32::MAX` and the tile's spans become `[0, 0]`; the
     * buffers stay well formed.
     */
    method RejectCells(cells: seq<IVec2>)
      requires Valid() && TablesOk(cellVertices, cellIndices, |positions|, |indices|)
      modifies this`indices, this`cellIndices, this`cellVertices
      ensures Valid() && TablesOk(cellVertices, cellIndices, |positions|, |indices|)
      ensures |indices| == old(|indices|)
      ensures forall k | 0 <= k < |indices| :: indices[k] == if Covered(old(cellIndices), cells, k) then U32Max else old(indices[k])
      ensures cellIndices == ClearSpans(old(cellIndices), cells) && cellVertices == ClearSpans(old(cellVertices), cells)
    {
      ghost var ids0, ix0, vs0 := indices, cellIndices, cellVertices;
      var j := 0;
      while j < |cells|
        invariant 0 <= j <= |cells|
        invariant Valid() && TablesOk(cellVertices, cellIndices, |positions|, |indices|) && |indices| == |ids0|
        invariant forall k | 0 <= k < |indices| :: indices[k] == if Covered(ix0, cells[..j], k) then U32Max else ids0[k]
        invariant cellIndices == ClearSpans(ix0, cells[..j]) && cellVertices == ClearSpans(vs0, cells[..j])
      {
        var c := cells[j];
        ClearSpansAt(ix0, cells[..j], c);
        RejectCell(c);
        assert cells[..j + 1] == cells[..j] + [c];
        assert cells[..j + 1][..j] == cells[..j];
        forall k | 0 <= k < |indices| ensures indices[k] == if Covered(ix0, cells[..j + 1], k) then U32Max else ids0[k] {
          if c in cells[..j] && InSpan(SpanAt(ix0, c), k) {
            CoveredByMember(ix0, cells[..j], c, k);
          }
        }
        j := j + 1;
      }
      assert cells[..j] == cells;
    }

    /** One turn of the rejection loop of `merge_quads`: the tile's indices rejected, its spans cleared. */
    method RejectCell(c: IVec2)
      requires Valid() && TablesOk(cellVertices, cellIndices, |positions|, |indices|)
      modifies this`indices, this`cellIndices, this`cellVertices
      ensures Valid() && TablesOk(cellVertices, cellIndices, |positions|, |indices|)
      ensures |indices| == old(|indices|)
      ensures forall k | 0 <= k < |indices| :: indices[k] == if InSpan(old(SpanAt(cellIndices, c)), k) then U32Max else old(indices[k])
      ensures cellIndices == old(cellIndices)[c := Span(0, 0)] && cellVertices == old(cellVertices)[c := Span(0, 0)]
    {
      var sp := SpanAt(cellIndices, c);
      ghost var before := indices;
      RejectSpan(sp);
      RejectSpanOk(before, indices, sp, |positions|);
      cellIndices := cellIndices[c := Span(0, 0)];
      cellVertices := cellVertices[c := Span(0, 0)];
    }

    /**
     * The end of `merge_quads` for a flat block: four vertices at the
     * block's corners and height, facing up with zero colour, and the two
     * triangles over them.
     */
    method AppendQuad(origin: IVec2, size: nat, z: real)
      requires Valid() && |positions| + 4 < U32Max
      modifies this`positions, this`normals, this`colors, this`indices
      ensures positions == old(positions) + QuadCorners(origin, size, z)
      ensures normals == old(normals) + [UnitZ, UnitZ, UnitZ, UnitZ]
      ensures colors == old(colors) + [ZeroVec4, ZeroVec4, ZeroVec4, ZeroVec4]
      ensures indices == old(indices) + QuadIndices(old(|positions|))
      ensures Valid()
    {
      var idx := |positions|;
      var offsets := [IVec2(0, 0), IVec2(size, 0), IVec2(size, size), IVec2(0, size)];
      var i := 0;
      while i < 4
        invariant 0 <= i <= 4 && indices == old(indices)
        invariant positions == old(positions) + QuadCorners(origin, size, z)[..i]
        invariant normals == old(normals) + [UnitZ, UnitZ, UnitZ, UnitZ][..i]
        invariant colors == old(colors) + [ZeroVec4, ZeroVec4, ZeroVec4, ZeroVec4][..i]
      {
        positions := positions + [QuadCorner(origin, offsets[i], z)];
        normals := normals + [UnitZ];
        colors := colors + [ZeroVec4];
        i := i + 1;
      }
      TrianglesOkExtend(indices, idx, QuadIndices(idx), |positions|);
      indices := indices + QuadIndices(idx);
    }

    /**
     * One block of `merge_quads`: when every tile of the block holds four
     * vertices at one height, its triangles are rejected, its spans cleared
     * and one quad at that height appended; otherwise nothing changes.
     * `groupZ` is the height merged at, if any.
     */
    method MergeGroup(origin: IVec2, size: nat) returns (ghost groupZ: Option<real>)
      requires Valid() && TablesOk(cellVertices, cellIndices, |positions|, |indices|) && |positions| + 4 < U32Max
      modifies this`positions, this`normals, this`colors, this`indices, this`cellIndices, this`cellVertices
      ensures Valid()
      ensures groupZ.None? ==> size == 0 || forall z :: !old(BlockFlat(cellVertices, positions, BlockCells(origin, size), z))
      ensures groupZ.None? ==> (
        positions == old(positions) && normals == old(normals) && colors == old(colors) &&
        indices == old(indices) && cellIndices == old(cellIndices) && cellVertices == old(cellVertices))
      ensures groupZ.Some? ==> old(BlockFlat(cellVertices, positions, BlockCells(origin, size), groupZ.value))
      ensures groupZ.Some? ==> (
        positions == old(positions) + QuadCorners(origin, size, groupZ.value) &&
        normals == old(normals) + [UnitZ, UnitZ, UnitZ, UnitZ] && colors == old(colors) + [ZeroVec4, ZeroVec4, ZeroVec4, ZeroVec4])
      ensures groupZ.Some? ==> (
        |indices| == old(|indices|) + 6 && indices[old(|indices|)..] == QuadIndices(old(|positions|)) &&
        forall k | 0 <= k < old(|indices|) :: indices[k] == if Covered(old(cellIndices), BlockCells(origin, size), k) then U32Max else old(indices[k]))
      ensures groupZ.Some? ==> (
        cellIndices == ClearSpans(old(cellIndices), BlockCells(origin, size)) &&
        cellVertices == ClearSpans(old(cellVertices), BlockCells(origin, size)))
    {
      var cells := BlockCells(origin, size);
      var level := GroupLevel(cells);
      groupZ := level;
      if level.Some? {
        RejectCells(cells);
        AppendQuad(origin, size, level.value);
      }
    }

    /**
     * `merge_quads(size)`: the size × size blocks of the chunk, in origin
     * order, each judged on the tables as they were before the pass (the
     * blocks are disjoint).  `zs` holds each block's verdict: the shared
     * height when every tile holds one flat quad at it, `None` when no
     * height fits.  Exactly the old slots covered by a merged block's
     * tiles are rejected, and one quad per merged block is appended, in
     * origin order.
     */
    method MergeQuads(size: nat) returns (ghost zs: seq<Option<real>>)
      requires size > 0
      requires Valid() && TablesOk(cellVertices, cellIndices, |positions|, |indices|)
      requires |positions| + 4 * |Origins(ChunkTiles, size)| < U32Max
      modifies this`positions, this`normals, this`colors, this`indices, this`cellIndices, this`cellVertices
      ensures Valid() && TablesOk(cellVertices, cellIndices, |positions|, old(|indices|))
      ensures |zs| == |Origins(ChunkTiles, size)|
      ensures |indices| == old(|indices|) + 6 * Merged(zs) && indices[old(|indices|)..] == MergedIndices(old(|positions|), zs)
      ensures forall i | 0 <= i < |zs| && zs[i].Some? ::
        BlockFlat(old(cellVertices), old(positions), BlockCells(Origins(ChunkTiles, size)[i], size), zs[i].value)
      ensures forall i, z | 0 <= i < |zs| && zs[i].None? ::
        !BlockFlat(old(cellVertices), old(positions), BlockCells(Origins(ChunkTiles, size)[i], size), z)
      ensures forall k | 0 <= k < old(|indices|) ::
        indices[k] == if exists i | 0 <= i < |zs| :: zs[i].Some? && Covered(old(cellIndices), BlockCells(Origins(ChunkTiles, size)[i], size), k)
                      then U32Max else old(indices[k])
      ensures positions == old(positions) + MergedCorners(Origins(ChunkTiles, size), zs, size)
      ensures normals == old(normals) + seq(4 * Merged(zs), _ => UnitZ)
      ensures colors == old(colors) + seq(4 * Merged(zs), _ => ZeroVec4)
      ensures forall k | old(|indices|) <= k < |indices| :: old(|positions|) <= indices[k] < |positions|
      ensures cellVertices == ClearMerged(old(cellVertices), Origins(ChunkTiles, size), zs, size)
      ensures cellIndices == ClearMerged(old(cellIndices), Origins(ChunkTiles, size), zs, size)
      ensures |positions| <= old(|positions|) + 4 * |Origins(ChunkTiles, size)|
    {
      ghost var b0, vs0, ix0 := Buf(), cellVertices, cellIndices;
      var origins := Origins(ChunkTiles, size);
      zs := [];
      var i := 0;
      while i < |origins|
        invariant 0 <= i <= |origins| && |zs| == i
        invariant Valid() && TablesOk(cellVertices, cellIndices, |positions|, |b0.indices|)
        invariant MergedSoFar(b0, vs0, ix0, origins, zs, size, Buf(), cellVertices, cellIndices)
      {
        var z := MergeNext(size, i, b0, vs0, ix0, zs);
        zs := zs + [z];
        i := i + 1;
      }
      MergedDone(b0, vs0, ix0, origins, zs, size, Buf(), cellVertices, cellIndices);
    }

    /** The body of the block loop of `merge_quads`: block |zs| judged and, when flat, merged. */
    method MergeNext(size: nat, i: nat, ghost b0: Buffers, ghost vs0: map<IVec2, Span>, ghost ix0: map<IVec2, Span>,
                     ghost zs: seq<Option<real>>) returns (ghost z: Option<real>)
      requires size > 0 && i == |zs| < |Origins(ChunkTiles, size)|
      requires |b0.positions| + 4 * |Origins(ChunkTiles, size)| < U32Max
      requires TablesOk(vs0, ix0, |b0.positions|, |b0.indices|)
      requires Valid() && TablesOk(cellVertices, cellIndices, |positions|, |b0.indices|)
      requires MergedSoFar(b0, vs0, ix0, Origins(ChunkTiles, size), zs, size, Buf(), cellVertices, cellIndices)
      modifies this`positions, this`normals, this`colors, this`indices, this`cellIndices, this`cellVertices
      ensures Valid() && TablesOk(cellVertices, cellIndices, |positions|, |b0.indices|)
      ensures MergedSoFar(b0, vs0, ix0, Origins(ChunkTiles, size), zs + [z], size, Buf(), cellVertices, cellIndices)
    {
      ghost var b, vs, ix := Buf(), cellVertices, cellIndices;
      var origin := Origins(ChunkTiles, size)[i];
      TablesOkMono(vs, ix, |b.positions|, |b0.indices|, |b.positions|, |b.indices|);
      z := MergeGroup(origin, size);
      if z.Some? {
        ClearSpansOk(vs, ix, BlockCells(origin, size), |positions|, |b0.indices|);
      }
      MergedStep(b0, vs0, ix0, size, zs, b, vs, ix, z, Buf(), cellVertices, cellIndices);
    }

    /**
     * `remove_rejected_triangles`: every `u32::MAX` dropped.  The triangles
     * left are exactly the ones that were not rejected, in order, and all
     * of them name existing vertices.
     */
    method RemoveRejectedTriangles()
      requires Valid()
      modifies this`indices
      ensures indices == WithoutRejected(old(indices))
      ensures Valid() && forall k | 0 <= k < |indices| :: indices[k] < |positions|
      ensures Triangles(indices) == KeptTriangles(old(Triangles(indices)))
    {
      RejectedTrianglesDropped(indices, |positions|);
      indices := WithoutRejected(indices);
      TrianglesOkAllInRange(indices, |positions|);
    }

    /**
     * `cleanup_triangles`: every degenerate triangle is removed with three
     * `swap_remove`s.  The index count stays a multiple of three, no
     * degenerate triangle is left and every other triangle survives as
     * often as it occurred (the order may change).
     */
    method CleanupTriangles()
      requires |indices| % 3 == 0 && forall k | 0 <= k < |indices| :: indices[k] < |positions|
      modifies this`indices
      ensures |indices| % 3 == 0 && forall k | 0 <= k < |indices| :: indices[k] < |positions|
      ensures forall t | t in Triangles(indices) :: !Flat(positions, t)
      ensures forall t :: multiset(Triangles(indices))[t] == if Flat(positions, t) then 0 else multiset(old(Triangles(indices)))[t]
    {
      indices := CleanupIndices(positions, indices);
    }

    /**
     * `deduplicate`: the buffers keep each distinct vertex once, in order of
     * first use by the index buffer, and every index still names the same
     * vertex.
     */
    method Deduplicate()
      requires Valid() && forall k | 0 <= k < |indices| :: indices[k] < |positions|
      modifies this`positions, this`normals, this`colors, this`indices
      ensures Valid() && forall k | 0 <= k < |indices| :: indices[k] < |positions|
      ensures |positions| <= old(|positions|) && |indices| == old(|indices|)
      ensures VertexTable(positions, normals, colors) == FirstUse(UsedVertices(old(VertexTable(positions, normals, colors)), old(indices)))
      ensures forall k | 0 <= k < |indices| ::
        VertexTable(positions, normals, colors)[indices[k]] == old(VertexTable(positions, normals, colors))[old(indices[k])]
    {
      positions, normals, colors, indices := DeduplicateBuffers(positions, normals, colors, indices);
      TrianglesOkAllInRange(indices, |positions|);
    }

    /** `apply_scale`: x and y of every position multiplied by `TILE_SIZE`, z kept. */
    method ApplyScale()
      modifies this`positions
      ensures |positions| == old(|positions|)
      ensures forall k | 0 <= k < |positions| :: positions[k] == Moved(MoveScale(TileSize), old(positions[k]))
    {
      MovePoints(0, MoveScale(TileSize));
    }

    /** One `merge_quads` call as `generate` chains them: the vertex buffer only grows, the index buffer only rejects. */
    method MergePass(size: nat)
      requires size > 0
      requires Valid() && TablesOk(cellVertices, cellIndices, |positions|, |indices|)
      requires |positions| + 4 * |Origins(ChunkTiles, size)| < U32Max
      modifies this`positions, this`normals, this`colors, this`indices, this`cellIndices, this`cellVertices
      ensures Valid() && TablesOk(cellVertices, cellIndices, |positions|, |indices|)
      ensures old(|positions|) <= |positions| <= old(|positions|) + 4 * |Origins(ChunkTiles, size)|
      ensures positions[..old(|positions|)] == old(positions)
      ensures OnlyRejects(old(indices), indices)
    {
      ghost var ix := indices;
      ghost var zs := MergeQuads(size);
      MergePassRejects(ix, indices);
      TablesOkMono(cellVertices, cellIndices, |positions|, |ix|, |positions|, |indices|);
    }

    /** The four `merge_quads` calls of `generate`, from 16 × 16 blocks down to 2 × 2. */
    method MergeAllQuads()
      requires Valid() && TablesOk(cellVertices, cellIndices, |positions|, |indices|)
      requires |positions| <= ChunkTiles * RowBudget
      modifies this`positions, this`normals, this`colors, this`indices, this`cellIndices, this`cellVertices
      ensures Valid()
      ensures old(|positions|) <= |positions| <= old(|positions|) + 4 * (4 + 16 + 64 + 256)
      ensures positions[..old(|positions|)] == old(positions)
      ensures OnlyRejects(old(indices), indices)
    {
      assert |Origins(ChunkTiles, 16)| == 4 && |Origins(ChunkTiles, 8)| == 16;
      assert |Origins(ChunkTiles, 4)| == 64 && |Origins(ChunkTiles, 2)| == 256;
      ghost var p0, ix0 := positions, indices;
      MergePass(16);
      ghost var p, ix := positions, indices;
      MergePass(8);
      OnlyRejectsTrans(ix0, ix, indices);
      assert positions[..|p0|] == p[..|p0|];
      p, ix := positions, indices;
      MergePass(4);
      OnlyRejectsTrans(ix0, ix, indices);
      assert positions[..|p0|] == p[..|p0|];
      p, ix := positions, indices;
      MergePass(2);
      OnlyRejectsTrans(ix0, ix, indices);
      assert positions[..|p0|] == p[..|p0|];
    }

    /** The passes of `generate` after merging: rejected and degenerate triangles out, vertices shared, scale applied. */
    method FinishMesh()
      requires Valid()
      modifies this`positions, this`normals, this`colors, this`indices
      ensures Valid() && forall k | 0 <= k < |indices| :: indices[k] < |positions|
      ensures Distinct(VertexTable(positions, normals, colors))
    {
      RemoveRejectedTriangles();
      CleanupTriangles();
      TrianglesOkAllInRange(indices, |positions|);
      Deduplicate();
      ghost var ps := positions;
      ApplyScale();
      ScaledDistinct(ps, positions, normals, colors);
    }

    /**
     * `generate`, up to the hand-off to the renderer and the physics engine:
     * the passes in their order on a fresh generator.  The result is a well
     * formed triangle list over vertices that are all distinct.
     */
    method Generate()
      requires CoversChunk(heightmap)
      requires positions == [] && normals == [] && colors == [] && indices == []
      requires cellIndices == map[] && cellVertices == map[] && cellWalls == map[]
      modifies this
      ensures Valid() && forall k | 0 <= k < |indices| :: indices[k] < |positions|
      ensures Distinct(VertexTable(positions, normals, colors))
    {
      GenerateCells();
      MergeAllQuads();
      FinishMesh();
    }
  }
}
