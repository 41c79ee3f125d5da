/**
 * The first terrain mesh generator of crates/rg_terrain/src/generator.rs: a
 * flat grid of R × R quads (R is `CHUNK_RESOLUTION`), one per cell, built
 * into a `MeshBuilder` that also carries a texture coordinate per vertex,
 * then scaled from cells to world units.  The height of a cell's quad is a
 * parameter (the source evaluates `sin`/`cos` of the cell's world place).
 */
module TerrainGenerator {
  import opened MeshData
  import opened Arith
  import Mesher
  import ChunkUnits

  const ZeroVec2 := Vec2(0.0, 0.0)

  class MeshBuilder {
    var positions: seq<Vec3>
    var normals: seq<Vec3>
    var uvs: seq<Vec2>
    var indices: seq<nat>

    /** `MeshBuilder::default()`. */
    constructor ()
      ensures positions == [] && normals == [] && uvs == [] && indices == []
    {
      positions, normals, uvs, indices := [], [], [], [];
    }

    /** Every vertex has a normal and a texture coordinate. */
    predicate Valid() reads this {
      |positions| == |normals| == |uvs|
    }

    /**
     * `vertex`: a position with an upward normal and a zero texture
     * coordinate; the index is the previous count as a `u32`.
     */
    method Vertex(pos: Vec3) returns (index: nat)
      requires Valid()
      modifies this`positions, this`normals, this`uvs
      ensures Valid()
      ensures positions == old(positions) + [pos] && normals == old(normals) + [UnitY] && uvs == old(uvs) + [ZeroVec2]
      ensures index == Mesher.Wrap32(old(|positions|))
      ensures old(|positions|) <= U32Max ==> index == old(|positions|) && positions[index] == pos
    {
      index := Mesher.Wrap32(|positions|);
      positions := positions + [pos];
      normals := normals + [UnitY];
      uvs := uvs + [ZeroVec2];
    }

    /** `triangle_indices`. */
    method TriangleIndices(a: nat, b: nat, c: nat)
      modifies this`indices
      ensures indices == old(indices) + [a, b, c]
    {
      indices := indices + [a, b, c];
    }

    /**
     * `triangle`: three new vertices and the triangle naming them in order,
     * each index the vertex count as a `u32`; exact while the count fits.
     */
    method Triangle(a: Vec3, b: Vec3, c: Vec3)
      requires Valid()
      modifies this`positions, this`normals, this`uvs, this`indices
      ensures Valid()
      ensures positions == old(positions) + [a, b, c]
      ensures normals == old(normals) + [UnitY, UnitY, UnitY] && uvs == old(uvs) + [ZeroVec2, ZeroVec2, ZeroVec2]
      ensures var n := old(|positions|); indices == old(indices) + [Mesher.Wrap32(n), Mesher.Wrap32(n + 1), Mesher.Wrap32(n + 2)]
      ensures var n := old(|positions|); n + 2 <= U32Max ==> indices == old(indices) + [n, n + 1, n + 2]
    {
      var ai := Vertex(a);
      var bi := Vertex(b);
      var ci := Vertex(c);
      TriangleIndices(ai, bi, ci);
    }

    /**
     * `quad`: four new vertices a, b, c, d and the triangles (a, b, c) and
     * (a, c, d) over them, each index the vertex count as a `u32`; exact
     * while the count fits.
     */
    method Quad(a: Vec3, b: Vec3, c: Vec3, d: Vec3)
      requires Valid()
      modifies this`positions, this`normals, this`uvs, this`indices
      ensures Valid()
      ensures positions == old(positions) + [a, b, c, d]
      ensures normals == old(normals) + [UnitY, UnitY, UnitY, UnitY] && uvs == old(uvs) + [ZeroVec2, ZeroVec2, ZeroVec2, ZeroVec2]
      ensures indices == old(indices) + Wrapped(QuadIndices(old(|positions|)))
      ensures old(|positions|) + 3 <= U32Max ==> indices == old(indices) + QuadIndices(old(|positions|))
    {
      var ai := Vertex(a);
      var bi := Vertex(b);
      var ci := Vertex(c);
      var di := Vertex(d);
      TriangleIndices(ai, bi, ci);
      TriangleIndices(ai, ci, di);
    }

    /** `apply_translation`: every position moved by t; nothing else changes. */
    method ApplyTranslation(t: Vec3)
      modifies this`positions
      ensures |positions| == old(|positions|)
      ensures forall k | 0 <= k < |positions| :: positions[k] == old(positions[k]).Add(t)
    {
      var k := 0;
      while k < |positions|
        invariant k <= |positions| == |old(positions)|
        invariant forall j | 0 <= j < |positions| :: positions[j] == if j < k then old(positions[j]).Add(t) else old(positions[j])
      {
        positions := positions[k := positions[k].Add(t)];
        k := k + 1;
      }
    }

    /** `apply_scale`: every position scaled componentwise by s; nothing else changes. */
    method ApplyScale(s: Vec3)
      modifies this`positions
      ensures |positions| == old(|positions|)
      ensures forall k | 0 <= k < |positions| :: positions[k] == old(positions[k]).Mul(s)
    {
      var k := 0;
      while k < |positions|
        invariant k <= |positions| == |old(positions)|
        invariant forall j | 0 <= j < |positions| :: positions[j] == if j < k then old(positions[j]).Mul(s) else old(positions[j])
      {
        positions := positions[k := positions[k].Mul(s)];
        k := k + 1;
      }
    }
  }

  /** Every index cast to a `u32`. */
  function Wrapped(s: seq<nat>): (r: seq<nat>)
    ensures |r| == |s| && forall k | 0 <= k < |s| :: r[k] == Mesher.Wrap32(s[k])
  {
    seq(|s|, k requires 0 <= k < |s| => Mesher.Wrap32(s[k]))
  }

  /** The indices `quad` appends when its first vertex is number n. */
  function QuadIndices(n: nat): seq<nat> {
    [n, n + 1, n + 2, n, n + 2, n + 3]
  }

  /** The corners a, b, c, d of the quad of cell (sx, sz) at height y, in cell units. */
  function QuadCorners(sx: nat, sz: nat, y: real): seq<Vec3> {
    var a := Vec3(sx as real, y, sz as real);
    [a, a.Add(Vec3(0.0, 0.0, 1.0)), a.Add(Vec3(1.0, 0.0, 1.0)), a.Add(Vec3(1.0, 0.0, 0.0))]
  }

  /** The positions of the first n quads, cell n taken as (n / R, n % R). */
  function GridPositions(res: nat, height: (nat, nat) -> real, n: nat): (r: seq<Vec3>)
    requires res > 0
    ensures |r| == 4 * n
  {
    if n == 0 then []
    else
      var q := n - 1;
      GridPositions(res, height, q) + QuadCorners(q / res, q % res, height(q / res, q % res))
  }

  /** The indices of the first n quads. */
  function GridIndices(n: nat): (r: seq<nat>)
    ensures |r| == 6 * n
  {
    if n == 0 then [] else GridIndices(n - 1) + QuadIndices(4 * (n - 1))
  }

  /**
   * The index buffer of n quads holds whole triangles naming only the 4n
   * vertices, and the two triangles of quad q use its own four vertices.
   */
  lemma {:induction false} GridIndicesInRange(n: nat)
    ensures |GridIndices(n)| % 3 == 0
    ensures forall k | 0 <= k < |GridIndices(n)| :: GridIndices(n)[k] < 4 * n
    ensures forall k | 0 <= k < |GridIndices(n)| :: 4 * (k / 6) <= GridIndices(n)[k] < 4 * (k / 6) + 4
  {
    if n > 0 {
      GridIndicesInRange(n - 1);
      var s := GridIndices(n);
      forall k | 0 <= k < |s| ensures 4 * (k / 6) <= s[k] < 4 * (k / 6) + 4 {
        if k >= 6 * (n - 1) {
          DivModUnique(k, 6, n - 1, k - 6 * (n - 1));
        }
      }
    }
  }

  /**
   * Both triangles of a generated quad are wound the same way in the xz
   * plane (negatively, as the mesher's floor triangles are), whatever the
   * cell and the height.
   */
  lemma QuadWinding(sx: nat, sz: nat, y: real)
    ensures var c := QuadCorners(sx, sz, y);
      Mesher.OrientXZ(c[0], c[1], c[2]) == -1.0 && Mesher.OrientXZ(c[0], c[2], c[3]) == -1.0
  {
  }

  /** The quads so far: those of the first n cells, every vertex with an upward normal and a zero texture coordinate. */
  predicate Built(b: MeshBuilder, res: nat, height: (nat, nat) -> real, n: nat)
    reads b
    requires res > 0
  {
    b.Valid() && b.positions == GridPositions(res, height, n) && b.indices == GridIndices(n) &&
    forall k | 0 <= k < |b.normals| :: b.normals[k] == UnitY && b.uvs[k] == ZeroVec2
  }

  /** The body of the inner loop of `generate`: the quad of cell (sx, sz), cell number sx * R + sz. */
  method GenerateQuad(b: MeshBuilder, res: nat, sx: nat, sz: nat, height: (nat, nat) -> real)
    requires res > 0 && sz < res && 4 * (sx * res + sz + 1) <= U32Max + 1
    requires Built(b, res, height, sx * res + sz)
    modifies b
    ensures Built(b, res, height, sx * res + sz + 1)
  {
    var n := sx * res + sz;
    DivModUnique(n, res, sx, sz);
    var y := height(sx, sz);
    var a := Vec3(sx as real, y, sz as real);
    b.Quad(a, a.Add(Vec3(0.0, 0.0, 1.0)), a.Add(Vec3(1.0, 0.0, 1.0)), a.Add(Vec3(1.0, 0.0, 0.0)));
  }

  /** The inner loop of `generate`: the quads of cells (sx, 0) to (sx, R - 1). */
  method GenerateColumn(b: MeshBuilder, res: nat, sx: nat, height: (nat, nat) -> real)
    requires res > 0 && sx < res && 4 * (res * res) <= U32Max + 1
    requires Built(b, res, height, sx * res)
    modifies b
    ensures Built(b, res, height, (sx + 1) * res)
  {
    MulMono(sx + 1, res, res);
    ghost var last := sx * res + res;
    assert last == (sx + 1) * res && 4 * last <= U32Max + 1;
    var sz := 0;
    while sz < res
      invariant sz <= res
      invariant Built(b, res, height, sx * res + sz)
    {
      assert sx * res + sz + 1 <= last;
      GenerateQuad(b, res, sx, sz, height);
      sz := sz + 1;
    }
  }

  /**
   * `generate`: one quad per cell, column by column, then every position
   * scaled by `CHUNK_SIZE / R` horizontally.  The result has 4R² vertices,
   * each with an upward normal and a zero texture coordinate, and 6R²
   * indices, the two triangles of each quad over its own vertices.
   */
  method Generate(res: nat, height: (nat, nat) -> real) returns (b: MeshBuilder)
    requires res > 0 && 4 * (res * res) <= U32Max + 1
    ensures fresh(b) && b.Valid()
    ensures var scale := ChunkUnits.ChunkSize / res as real; var ps := GridPositions(res, height, res * res);
      |b.positions| == 4 * (res * res) && forall k | 0 <= k < |ps| :: b.positions[k] == ps[k].Mul(Vec3(scale, 1.0, scale))
    ensures b.indices == GridIndices(res * res) && |b.indices| == 6 * (res * res)
    ensures forall k | 0 <= k < |b.normals| :: b.normals[k] == UnitY && b.uvs[k] == ZeroVec2
  {
    b := new MeshBuilder();
    var sx := 0;
    while sx < res
      invariant sx <= res && fresh(b)
      invariant Built(b, res, height, sx * res)
    {
      GenerateColumn(b, res, sx, height);
      sx := sx + 1;
    }
    var scale := ChunkUnits.ChunkSize / res as real;
    b.ApplyScale(Vec3(scale, 1.0, scale));
  }
}
