/**
 * Vertex and index buffers shared by the terrain meshers
 * (crates/rg_terrain/src/surface/mesh.rs, crates/rg_terrain/src/mesher.rs and
 * crates/rg_terrain/src/generator.rs).  Coordinates are reals; an index
 * buffer is read three entries at a time as a list of triangles.
 */
module MeshData {
  datatype Vec2 = Vec2(x: real, y: real) {
    function Extend(z: real): Vec3 { Vec3(x, y, z) }
  }

  datatype Vec3 = Vec3(x: real, y: real, z: real) {
    function Add(o: Vec3): Vec3 { Vec3(x + o.x, y + o.y, z + o.z) }
    function Sub(o: Vec3): Vec3 { Vec3(x - o.x, y - o.y, z - o.z) }
    function Mul(o: Vec3): Vec3 { Vec3(x * o.x, y * o.y, z * o.z) }
    function Cross(o: Vec3): Vec3 { Vec3(y * o.z - z * o.y, z * o.x - x * o.z, x * o.y - y * o.x) }
    function LengthSquared(): real { x * x + y * y + z * z }
    function XY(): Vec2 { Vec2(x, y) }
  }

  datatype Vec4 = Vec4(x: real, y: real, z: real, w: real)

  const ZeroVec3 := Vec3(0.0, 0.0, 0.0)
  const UnitY := Vec3(0.0, 1.0, 0.0)
  const UnitZ := Vec3(0.0, 0.0, 1.0)
  const ZeroVec4 := Vec4(0.0, 0.0, 0.0, 0.0)

  /** `u32::MAX`: indices are `u32`, and this value marks a rejected index. */
  const U32Max: nat := 0xffff_ffff

  /** One triangle of an index buffer. */
  datatype Tri = Tri(a: nat, b: nat, c: nat)

  /** A triangle whose three indices were overwritten with `u32::MAX`. */
  const Rejected := Tri(U32Max, U32Max, U32Max)

  predicate TriInRange(t: Tri, n: nat) {
    t.a < n && t.b < n && t.c < n
  }

  /** The triangles of an index buffer, three entries each. */
  function Triangles(s: seq<nat>): (r: seq<Tri>)
    requires |s| % 3 == 0
    ensures |r| == |s| / 3
    ensures forall t | 0 <= t < |r| :: r[t] == Tri(s[3 * t], s[3 * t + 1], s[3 * t + 2])
  {
    if s == [] then []
    else
      var rest := Triangles(s[3..]);
      assert forall t | 0 < t < |rest| + 1 :: rest[t - 1] == Tri(s[3 * t], s[3 * t + 1], s[3 * t + 2]);
      [Tri(s[0], s[1], s[2])] + rest
  }

  lemma {:induction false} TrianglesAppend(s: seq<nat>, u: seq<nat>)
    requires |s| % 3 == 0 && |u| % 3 == 0
    ensures Triangles(s + u) == Triangles(s) + Triangles(u)
  {
    if s != [] {
      assert (s + u)[3..] == s[3..] + u;
      TrianglesAppend(s[3..], u);
    } else {
      assert s + u == u;
    }
  }

  predicate TriOk(t: Tri, n: nat) {
    t == Rejected || TriInRange(t, n)
  }

  /**
   * Every triangle of the buffer either names vertices below n or was
   * rejected whole.
   */
  predicate TrianglesOk(s: seq<nat>, n: nat)
    requires |s| % 3 == 0
    decreases |s|
  {
    s == [] || (TriOk(Tri(s[0], s[1], s[2]), n) && TrianglesOk(s[3..], n))
  }

  lemma {:induction false} TrianglesOkIff(s: seq<nat>, n: nat)
    requires |s| % 3 == 0
    ensures TrianglesOk(s, n) <==> forall t | t in Triangles(s) :: TriOk(t, n)
  {
    if s != [] {
      TrianglesOkIff(s[3..], n);
      assert Triangles(s) == [Tri(s[0], s[1], s[2])] + Triangles(s[3..]);
    }
  }

  /** Appending triangles in range keeps the buffer well formed. */
  lemma {:induction false} TrianglesOkAppend(s: seq<nat>, u: seq<nat>, n: nat)
    requires |s| % 3 == 0 && |u| % 3 == 0 && TrianglesOk(s, n)
    requires forall k | 0 <= k < |u| :: u[k] < n
    ensures TrianglesOk(s + u, n)
  {
    if s == [] {
      assert s + u == u;
      TrianglesOkAllInRange(u, n);
    } else {
      assert (s + u)[3..] == s[3..] + u;
      TrianglesOkAppend(s[3..], u, n);
    }
  }

  lemma {:induction false} TrianglesOkAllInRange(u: seq<nat>, n: nat)
    requires |u| % 3 == 0
    requires forall k | 0 <= k < |u| :: u[k] < n
    ensures TrianglesOk(u, n)
  {
    if u != [] {
      TrianglesOkAllInRange(u[3..], n);
    }
  }

  lemma {:induction false} TrianglesOkGrow(s: seq<nat>, n: nat, n': nat)
    requires |s| % 3 == 0 && TrianglesOk(s, n) && n <= n'
    ensures TrianglesOk(s, n')
  {
    if s != [] {
      TrianglesOkGrow(s[3..], n, n');
    }
  }

  /** New triangles over a grown vertex buffer keep the index buffer well formed. */
  lemma TrianglesOkExtend(s: seq<nat>, n: nat, u: seq<nat>, n': nat)
    requires |s| % 3 == 0 && |u| % 3 == 0 && TrianglesOk(s, n) && n <= n'
    requires forall k | 0 <= k < |u| :: u[k] < n'
    ensures TrianglesOk(s + u, n')
  {
    TrianglesOkGrow(s, n, n');
    TrianglesOkAppend(s, u, n');
  }
}
