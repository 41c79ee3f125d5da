/**
 * Buffer-level facts behind the post-passes of the chunk surface mesher
 * (crates/rg_terrain/src/surface/mesh.rs): dropping rejected indices,
 * removing a triangle with `swap_remove`, degenerate triangles, the
 * first-use numbering of `deduplicate` and the blocks of `merge_quads`.
 */
module MeshPasses {
  import opened Grids
  import opened MeshData
  import opened Arith

  // ---------------------------------------------------------------------
  // remove_rejected_triangles

  /** `indices.retain(|&v| v != u32::MAX)`: the indices other than `u32::MAX`, in order. */
  function WithoutRejected(ids: seq<nat>): (r: seq<nat>)
    ensures |r| <= |ids|
    ensures forall k | 0 <= k < |r| :: r[k] != U32Max
    ensures forall v | v != U32Max :: multiset(r)[v] == multiset(ids)[v]
  {
    if ids == [] then []
    else
      var rest := WithoutRejected(ids[1..]);
      assert ids == [ids[0]] + ids[1..];
      if ids[0] == U32Max then rest else [ids[0]] + rest
  }

  lemma {:induction false} WithoutRejectedAppend(s: seq<nat>, u: seq<nat>)
    ensures WithoutRejected(s + u) == WithoutRejected(s) + WithoutRejected(u)
  {
    if s == [] {
      assert s + u == u;
    } else {
      assert (s + u)[1..] == s[1..] + u;
      WithoutRejectedAppend(s[1..], u);
    }
  }

  /** The triangles that were not rejected, in order. */
  function KeptTriangles(ts: seq<Tri>): seq<Tri> {
    if ts == [] then []
    else (if ts[0] == Rejected then [] else [ts[0]]) + KeptTriangles(ts[1..])
  }

  /**
   * On a well-formed buffer whose vertex numbers fit a `u32`, dropping every
   * `u32::MAX` drops exactly the rejected triangles: the rest keep their
   * three indices together, in order, and all of them name vertices.
   */
  lemma {:induction false} RejectedTrianglesDropped(ids: seq<nat>, n: nat)
    requires |ids| % 3 == 0 && TrianglesOk(ids, n) && n <= U32Max
    ensures |WithoutRejected(ids)| % 3 == 0
    ensures Triangles(WithoutRejected(ids)) == KeptTriangles(Triangles(ids))
    ensures forall k | 0 <= k < |WithoutRejected(ids)| :: WithoutRejected(ids)[k] < n
  {
    if ids != [] {
      var head, tail := ids[..3], ids[3..];
      assert ids == head + tail;
      WithoutRejectedAppend(head, tail);
      RejectedTrianglesDropped(tail, n);
      var t := Tri(ids[0], ids[1], ids[2]);
      WithoutRejectedTriple(head, n);
      var ts := Triangles(ids);
      assert ts[0] == t && ts[1..] == Triangles(tail);
      assert KeptTriangles(ts) == (if t == Rejected then [] else [t]) + KeptTriangles(Triangles(tail));
      if t != Rejected {
        TrianglesAppend(head, WithoutRejected(tail));
        assert Triangles(head) == [t];
      }
    }
  }

  /** A whole triangle of a well-formed buffer is dropped when rejected and kept otherwise. */
  lemma WithoutRejectedTriple(head: seq<nat>, n: nat)
    requires |head| == 3 && TriOk(Tri(head[0], head[1], head[2]), n) && n <= U32Max
    ensures WithoutRejected(head) == if Tri(head[0], head[1], head[2]) == Rejected then [] else head
  {
    var r2 := WithoutRejected(head[2..]);
    var r1 := WithoutRejected(head[1..]);
    assert head[1..][1..] == head[2..] && head[2..][1..] == [];
    assert r2 == if head[2] == U32Max then [] else [head[2]];
    assert r1 == (if head[1] == U32Max then [] else [head[1]]) + r2;
    assert WithoutRejected(head) == (if head[0] == U32Max then [] else [head[0]]) + r1;
    if Tri(head[0], head[1], head[2]) != Rejected {
      assert head == [head[0]] + ([head[1]] + [head[2]]);
    }
  }

  /** Every triangle `KeptTriangles` returns was in the input and not rejected, and none that were are lost. */
  lemma {:induction false} KeptTrianglesExact(ts: seq<Tri>)
    ensures forall t :: t in KeptTriangles(ts) <==> t in ts && t != Rejected
  {
    if ts != [] {
      KeptTrianglesExact(ts[1..]);
      assert ts == [ts[0]] + ts[1..];
    }
  }

  // ---------------------------------------------------------------------
  // cleanup_triangles

  /** `Vec::swap_remove`: the last element takes the place of element i. */
  function SwapRemove(s: seq<nat>, i: nat): (r: seq<nat>)
    requires i < |s|
    ensures |r| == |s| - 1
    ensures forall k | 0 <= k < |r| :: r[k] == if k == i then s[|s| - 1] else s[k]
  {
    s[i := s[|s| - 1]][..|s| - 1]
  }

  /** The three `swap_remove`s that delete the triangle starting at `idx`. */
  function RemoveTriangleAt(ids: seq<nat>, idx: nat): seq<nat>
    requires idx + 3 <= |ids|
  {
    SwapRemove(SwapRemove(SwapRemove(ids, idx + 2), idx + 1), idx)
  }

  /**
   * The three `swap_remove`s take out the triangle at `idx` and move the
   * last triangle into its slots whole, in the same order; nothing else
   * moves.
   */
  lemma RemoveTriangleMovesLast(ids: seq<nat>, idx: nat)
    requires |ids| % 3 == 0 && idx % 3 == 0 && idx + 3 <= |ids|
    ensures var r := RemoveTriangleAt(ids, idx);
      |r| == |ids| - 3 && |r| % 3 == 0 &&
      forall k | 0 <= k < |r| :: r[k] == if idx <= k < idx + 3 then ids[|ids| - 3 + (k - idx)] else ids[k]
  {
  }

  /** The triangle list after `swap_remove` of triangle t. */
  function TriSwapRemove(ts: seq<Tri>, t: nat): seq<Tri>
    requires t < |ts|
  {
    ts[t := ts[|ts| - 1]][..|ts| - 1]
  }

  /** Removing triangle t this way removes exactly one copy of it. */
  lemma TriSwapRemoveCount(ts: seq<Tri>, t: nat)
    requires t < |ts|
    ensures multiset(TriSwapRemove(ts, t)) == multiset(ts) - multiset{ts[t]}
  {
    var last := |ts| - 1;
    if t == last {
      assert ts == ts[..last] + [ts[last]];
      assert TriSwapRemove(ts, t) == ts[..last];
    } else {
      assert ts == ts[..t] + [ts[t]] + ts[t + 1..last] + [ts[last]];
      assert TriSwapRemove(ts, t) == ts[..t] + [ts[last]] + ts[t + 1..last];
    }
  }

  /** Seen as triangles, the three `swap_remove`s are one triangle-level `swap_remove`. */
  lemma RemoveTriangleTriangles(ids: seq<nat>, idx: nat)
    requires |ids| % 3 == 0 && idx % 3 == 0 && idx + 3 <= |ids|
    ensures |RemoveTriangleAt(ids, idx)| % 3 == 0
    ensures Triangles(RemoveTriangleAt(ids, idx)) == TriSwapRemove(Triangles(ids), idx / 3)
  {
    RemoveTriangleMovesLast(ids, idx);
    var r := RemoveTriangleAt(ids, idx);
    var ts := Triangles(ids);
    var u := TriSwapRemove(ts, idx / 3);
    forall t | 0 <= t < |u| ensures Triangles(r)[t] == u[t] {
      if t == idx / 3 {
        assert 3 * t == idx;
      } else {
        assert 3 * t + 2 < idx || idx + 3 <= 3 * t;
      }
    }
  }

  /** The next triangle of a buffer of whole triangles starts on a slot of its own. */
  lemma NextSlot(idx: nat, len: nat)
    requires idx % 3 == 0 && len % 3 == 0 && idx < len
    ensures (idx + 3) % 3 == 0 && idx + 3 <= len
  {
  }

  /** The `swap_remove`s move indices but never invent one. */
  lemma RemoveTriangleInRange(ids: seq<nat>, idx: nat, n: nat)
    requires |ids| % 3 == 0 && idx % 3 == 0 && idx + 3 <= |ids|
    requires forall k | 0 <= k < |ids| :: ids[k] < n
    ensures |RemoveTriangleAt(ids, idx)| % 3 == 0
    ensures forall k | 0 <= k < |RemoveTriangleAt(ids, idx)| :: RemoveTriangleAt(ids, idx)[k] < n
  {
    RemoveTriangleMovesLast(ids, idx);
  }

  /** The triangles before the removed one stay where they were. */
  lemma RemoveTrianglePrefix(ids: seq<nat>, idx: nat, t: nat)
    requires |ids| % 3 == 0 && idx % 3 == 0 && idx == 3 * t && idx + 3 <= |ids|
    ensures |RemoveTriangleAt(ids, idx)| % 3 == 0
    ensures forall i | 0 <= i < t :: Triangles(RemoveTriangleAt(ids, idx))[i] == Triangles(ids)[i]
  {
    RemoveTriangleTriangles(ids, idx);
    assert idx / 3 == t;
  }

  /** Only one copy of the removed triangle goes; every other triangle keeps its count. */
  lemma RemoveTriangleCount(ids: seq<nat>, idx: nat, t: nat)
    requires |ids| % 3 == 0 && idx % 3 == 0 && idx == 3 * t && idx + 3 <= |ids|
    ensures |RemoveTriangleAt(ids, idx)| % 3 == 0
    ensures multiset(Triangles(RemoveTriangleAt(ids, idx))) == multiset(Triangles(ids)) - multiset{Triangles(ids)[t]}
  {
    RemoveTriangleTriangles(ids, idx);
    assert idx / 3 == t;
    TriSwapRemoveCount(Triangles(ids), t);
  }

  /** `1e-10`, the squared-area bound below which `cleanup_triangles` drops a triangle. */
  const FlatArea: real := 0.0000000001

  /**
   * A triangle of in-range vertices whose cross product has squared length
   * below 1e-10: the test of `cleanup_triangles`, on exact reals.
   */
  predicate Flat(ps: seq<Vec3>, t: Tri) {
    TriInRange(t, |ps|) && ps[t.a].Sub(ps[t.b]).Cross(ps[t.a].Sub(ps[t.c])).LengthSquared() < FlatArea
  }

  /** The test `cleanup_triangles` computes on the three corners is `Flat`. */
  lemma FlatTest(ps: seq<Vec3>, t: Tri, a: Vec3, b: Vec3, c: Vec3)
    requires TriInRange(t, |ps|) && a == ps[t.a] && b == ps[t.b] && c == ps[t.c]
    ensures Flat(ps, t) <==> a.Sub(b).Cross(a.Sub(c)).LengthSquared() < FlatArea
  {
  }

  /** Removing one copy of a degenerate triangle keeps the count of every other triangle. */
  lemma FlatRemoved(ps: seq<Vec3>, before: seq<Tri>, after: seq<Tri>, tri: Tri, ts0: seq<Tri>)
    requires Flat(ps, tri) && multiset(after) == multiset(before) - multiset{tri}
    requires forall t | !Flat(ps, t) :: multiset(before)[t] == multiset(ts0)[t]
    ensures forall t | !Flat(ps, t) :: multiset(after)[t] == multiset(ts0)[t]
  {
    forall t | !Flat(ps, t) ensures multiset(after)[t] == multiset(ts0)[t] {
      assert t != tri;
    }
  }

  /**
   * The state of the `cleanup_triangles` loop after `done` triangles have
   * been kept: whole triangles of valid indices, none of the kept ones
   * degenerate, and every other triangle of the input still there as often
   * as before.
   */
  ghost predicate Cleaned(ps: seq<Vec3>, ids: seq<nat>, ts0: seq<Tri>, done: nat) {
    |ids| % 3 == 0 && 3 * done <= |ids| &&
    (forall k | 0 <= k < |ids| :: ids[k] < |ps|) &&
    (forall t | 0 <= t < done && t < |Triangles(ids)| :: !Flat(ps, Triangles(ids)[t])) &&
    (forall t | !Flat(ps, t) :: multiset(Triangles(ids))[t] == multiset(ts0)[t])
  }

  /** Deleting the degenerate triangle at slot `done` keeps the loop state. */
  lemma DropStep(ps: seq<Vec3>, ids: seq<nat>, ts0: seq<Tri>, idx: nat, done: nat)
    requires idx == 3 * done && idx % 3 == 0 && idx < |ids| && Cleaned(ps, ids, ts0, done)
    requires done < |Triangles(ids)| && Flat(ps, Triangles(ids)[done])
    ensures idx + 3 <= |ids| && |RemoveTriangleAt(ids, idx)| < |ids|
    ensures Cleaned(ps, RemoveTriangleAt(ids, idx), ts0, done)
  {
    NextSlot(idx, |ids|);
    var r := RemoveTriangleAt(ids, idx);
    RemoveTriangleInRange(ids, idx, |ps|);
    RemoveTrianglePrefix(ids, idx, done);
    RemoveTriangleCount(ids, idx, done);
    FlatRemoved(ps, Triangles(ids), Triangles(r), Triangles(ids)[done], ts0);
  }

  /** Keeping the sound triangle at slot `done` moves the loop on by one triangle. */
  lemma KeepStep(ps: seq<Vec3>, ids: seq<nat>, ts0: seq<Tri>, idx: nat, done: nat)
    requires idx == 3 * done && idx % 3 == 0 && idx < |ids| && Cleaned(ps, ids, ts0, done)
    requires done < |Triangles(ids)| && !Flat(ps, Triangles(ids)[done])
    ensures idx + 3 <= |ids| && (idx + 3) % 3 == 0
    ensures Cleaned(ps, ids, ts0, done + 1)
  {
    NextSlot(idx, |ids|);
    var ts := Triangles(ids);
    forall t | 0 <= t < done + 1 && t < |ts| ensures !Flat(ps, ts[t]) {
      if t < done {
        assert !Flat(ps, ts[t]);
      }
    }
  }

  /** At the end of the loop every triangle has been kept, so none is degenerate. */
  lemma CleanedDone(ps: seq<Vec3>, ids: seq<nat>, ts0: seq<Tri>, done: nat)
    requires Cleaned(ps, ids, ts0, done) && 3 * done == |ids|
    ensures forall t | t in Triangles(ids) :: !Flat(ps, t)
  {
    forall t | t in Triangles(ids) ensures !Flat(ps, t) {
      var i :| 0 <= i < |Triangles(ids)| && Triangles(ids)[i] == t;
    }
  }

  /**
   * One turn of the `cleanup_triangles` loop: the triangle at `idx` is
   * deleted with three `swap_remove`s when degenerate (its slot is then
   * examined again), and stepped over otherwise.
   */
  method CleanupStep(ps: seq<Vec3>, ids: seq<nat>, idx: nat, ghost ts0: seq<Tri>, ghost done: nat)
    returns (ids': seq<nat>, idx': nat, ghost done': nat)
    requires idx == 3 * done && idx % 3 == 0 && idx < |ids| && Cleaned(ps, ids, ts0, done)
    ensures idx' == 3 * done' && idx' % 3 == 0 && Cleaned(ps, ids', ts0, done')
    ensures |ids'| - idx' < |ids| - idx
  {
    assert idx + 2 < |ids| && done < |Triangles(ids)|;
    var a := ps[ids[idx]];
    var b := ps[ids[idx + 1]];
    var c := ps[ids[idx + 2]];
    ghost var tri := Triangles(ids)[done];
    assert tri == Tri(ids[idx], ids[idx + 1], ids[idx + 2]);
    FlatTest(ps, tri, a, b, c);
    if a.Sub(b).Cross(a.Sub(c)).LengthSquared() < FlatArea {
      DropStep(ps, ids, ts0, idx, done);
      ids' := SwapRemove(ids, idx + 2);
      ids' := SwapRemove(ids', idx + 1);
      ids' := SwapRemove(ids', idx);
      idx', done' := idx, done;
    } else {
      KeepStep(ps, ids, ts0, idx, done);
      ids', idx', done' := ids, idx + 3, done + 1;
    }
  }

  /**
   * The loop of `cleanup_triangles` over an index list.  No degenerate
   * triangle is left and every other triangle keeps its multiplicity.
   */
  method CleanupIndices(ps: seq<Vec3>, ids0: seq<nat>) returns (ids: seq<nat>)
    requires |ids0| % 3 == 0 && forall k | 0 <= k < |ids0| :: ids0[k] < |ps|
    ensures |ids| % 3 == 0 && forall k | 0 <= k < |ids| :: ids[k] < |ps|
    ensures forall t | t in Triangles(ids) :: !Flat(ps, t)
    ensures forall t :: multiset(Triangles(ids))[t] == if Flat(ps, t) then 0 else multiset(Triangles(ids0))[t]
  {
    ids := ids0;
    ghost var ts0 := Triangles(ids0);
    var idx := 0;
    ghost var done := 0;
    while idx < |ids|
      invariant idx == 3 * done && idx % 3 == 0 && Cleaned(ps, ids, ts0, done)
      decreases |ids| - idx
    {
      ids, idx, done := CleanupStep(ps, ids, idx, ts0, done);
    }
    CleanedDone(ps, ids, ts0, done);
  }

  // ---------------------------------------------------------------------
  // deduplicate

  /** A vertex as `deduplicate` keys it: position, normal and colour together. */
  datatype Vertex = Vertex(pos: Vec3, normal: Vec3, color: Vec4)

  predicate Distinct(vs: seq<Vertex>) {
    forall i, j | 0 <= i < j < |vs| :: vs[i] != vs[j]
  }

  /**
   * The distinct vertices of vs in order of first occurrence: the numbering
   * `deduplicate` gives them.
   */
  function FirstUse(vs: seq<Vertex>): (r: seq<Vertex>)
    ensures Distinct(r) && |r| <= |vs|
    ensures forall v :: v in r <==> v in vs
  {
    if vs == [] then []
    else
      var init := vs[..|vs| - 1];
      var f := FirstUse(init);
      var v := vs[|vs| - 1];
      assert vs == init + [v];
      if v in f then f else f + [v]
  }

  /** Later uses never renumber earlier ones: the first-use list of a prefix is a prefix. */
  lemma {:induction false} FirstUsePrefix(vs: seq<Vertex>, k: nat)
    requires k <= |vs|
    ensures FirstUse(vs[..k]) <= FirstUse(vs)
    decreases |vs| - k
  {
    if k < |vs| {
      FirstUsePrefix(vs, k + 1);
      assert vs[..k + 1][..k] == vs[..k];
    } else {
      assert vs[..k] == vs;
    }
  }

  /** A list without duplicates is its own first-use list: `deduplicate` leaves it as it is. */
  lemma {:induction false} FirstUseOfDistinct(vs: seq<Vertex>)
    requires Distinct(vs)
    ensures FirstUse(vs) == vs
  {
    if vs != [] {
      var init := vs[..|vs| - 1];
      assert Distinct(init);
      FirstUseOfDistinct(init);
      assert vs[|vs| - 1] !in init;
      assert vs == init + [vs[|vs| - 1]];
    }
  }

  /** A duplicate-free list drawn from t is no longer than t. */
  lemma {:induction false} DistinctBound(r: seq<Vertex>, t: seq<Vertex>)
    requires Distinct(r) && forall i | 0 <= i < |r| :: r[i] in t
    ensures |r| <= |t|
    decreases |t|
  {
    if r != [] {
      assert r[0] in t;
      var last := t[|t| - 1];
      var init := t[..|t| - 1];
      assert t == init + [last];
      if i :| 0 <= i < |r| && r[i] == last {
        var r' := r[..i] + r[i + 1..];
        forall j | 0 <= j < |r'| ensures r'[j] in init {
          var j' := if j < i then j else j + 1;
          assert r'[j] == r[j'] && r[j'] != r[i];
        }
        DistinctBound(r', init);
      } else {
        forall j | 0 <= j < |r| ensures r[j] in init {
          assert r[j] in t && r[j] != last;
        }
        DistinctBound(r, init);
      }
    }
  }

  // ---------------------------------------------------------------------
  // merge_quads

  /**
   * The tiles of the size × size block at `origin`, in the order
   * `merge_quads` visits them: column by column, each column top down.
   */
  function BlockCells(origin: IVec2, size: nat): (r: seq<IVec2>)
    ensures |r| == size * size
    ensures forall k | 0 <= k < |r| :: origin.x <= r[k].x < origin.x + size && origin.y <= r[k].y < origin.y + size
  {
    var r := seq(size * size, k requires 0 <= k < size * size => IVec2(origin.x + k / size, origin.y + k % size));
    assert forall k | 0 <= k < |r| :: 0 <= k / size < size && 0 <= k % size < size by {
      forall k | 0 <= k < |r| ensures 0 <= k / size < size && 0 <= k % size < size {
        RowMajorCell(size, size, k);
      }
    }
    r
  }

  /**
   * The block origins of `merge_quads(size)`: every size-th column, and in
   * each the size-th rows, of a chunk of `tiles` × `tiles` tiles.
   */
  function Origins(tiles: nat, size: nat): (r: seq<IVec2>)
    requires size > 0
    ensures |r| == Steps(tiles, size) * Steps(tiles, size)
    ensures forall k | 0 <= k < |r| :: 0 <= r[k].x < tiles && 0 <= r[k].y < tiles && r[k].x % size == 0 && r[k].y % size == 0
  {
    var n := Steps(tiles, size);
    var r := seq(n * n, k requires 0 <= k < n * n => IVec2(k / n * size, k % n * size));
    assert forall k | 0 <= k < |r| :: 0 <= r[k].x < tiles && 0 <= r[k].y < tiles && r[k].x % size == 0 && r[k].y % size == 0 by {
      forall k | 0 <= k < |r| ensures 0 <= r[k].x < tiles && 0 <= r[k].y < tiles && r[k].x % size == 0 && r[k].y % size == 0 {
        RowMajorCell(n, n, k);
        StepInRange(tiles, size, k / n);
        StepInRange(tiles, size, k % n);
      }
    }
    r
  }

  /** The number of values `(0..tiles).step_by(size)` yields. */
  function Steps(tiles: nat, size: nat): nat
    requires size > 0
  {
    (tiles + size - 1) / size
  }

  lemma StepInRange(tiles: nat, size: nat, i: nat)
    requires size > 0 && i < Steps(tiles, size)
    ensures 0 <= i * size < tiles && (i * size) % size == 0
  {
    var q := (tiles + size - 1) / size;
    assert (tiles + size - 1) == q * size + (tiles + size - 1) % size;
    MulMono(i + 1, q, size);
    assert (i + 1) * size == i * size + size;
    DivModUnique(i * size, size, i, 0);
  }

  /** The two triangles `merge_quads` appends for a block, over its four new vertices from n. */
  function QuadIndices(n: nat): seq<nat> {
    [n, n + 1, n + 2, n, n + 2, n + 3]
  }

  /** A corner of a merged quad: the tile corner `origin + off` at height z. */
  function QuadCorner(origin: IVec2, off: IVec2, z: real): Vec3 {
    var p := origin.Plus(off);
    Vec3(p.x as real, p.y as real, z)
  }

  /** The corners of the merged quad, counter-clockwise from the origin. */
  function QuadCorners(origin: IVec2, size: nat, z: real): (r: seq<Vec3>)
    ensures |r| == 4
  {
    [QuadCorner(origin, IVec2(0, 0), z), QuadCorner(origin, IVec2(size, 0), z),
     QuadCorner(origin, IVec2(size, size), z), QuadCorner(origin, IVec2(0, size), z)]
  }

  /** The z component of the normal (b - a) × (c - a) of a triangle. */
  function NormalZ(a: Vec3, b: Vec3, c: Vec3): real {
    b.Sub(a).Cross(c.Sub(a)).z
  }

  /** Both triangles of a merged quad of positive size face up and are not degenerate. */
  lemma QuadFacesUp(origin: IVec2, size: nat, z: real, ps: seq<Vec3>)
    requires size > 0 && |ps| >= 4 && ps[|ps| - 4..] == QuadCorners(origin, size, z)
    ensures var n := |ps| - 4; var ids := QuadIndices(n);
      NormalZ(ps[ids[0]], ps[ids[1]], ps[ids[2]]) > 0.0 && NormalZ(ps[ids[3]], ps[ids[4]], ps[ids[5]]) > 0.0 &&
      !Flat(ps, Tri(ids[0], ids[1], ids[2])) && !Flat(ps, Tri(ids[3], ids[4], ids[5]))
  {
    var n := |ps| - 4;
    var s := size as real;
    assert ps[n] == QuadCorners(origin, size, z)[0];
    assert ps[n + 1] == QuadCorners(origin, size, z)[1];
    assert ps[n + 2] == QuadCorners(origin, size, z)[2];
    assert ps[n + 3] == QuadCorners(origin, size, z)[3];
    assert s * s > 0.0;
    assert s * s * (s * s) >= 1.0 by {
      assert s >= 1.0;
      assert s * s >= 1.0;
    }
  }

  // ---------------------------------------------------------------------
  // the vertex table read by deduplicate

  /** The vertices of the buffers, position, normal and colour side by side. */
  function VertexTable(ps: seq<Vec3>, ns: seq<Vec3>, cs: seq<Vec4>): (r: seq<Vertex>)
    requires |ns| == |ps| && |cs| == |ps|
    ensures |r| == |ps|
  {
    seq(|ps|, k requires 0 <= k < |ps| => Vertex(ps[k], ns[k], cs[k]))
  }

  /** The vertex each index names, one per index. */
  function UsedVertices(table: seq<Vertex>, ids: seq<nat>): (r: seq<Vertex>)
    requires forall k | 0 <= k < |ids| :: ids[k] < |table|
    ensures |r| == |ids|
  {
    seq(|ids|, k requires 0 <= k < |ids| => table[ids[k]])
  }

  /** Deduplication never produces more vertices than there were. */
  lemma FirstUseFits(table: seq<Vertex>, ids: seq<nat>)
    requires forall k | 0 <= k < |ids| :: ids[k] < |table|
    ensures |FirstUse(UsedVertices(table, ids))| <= |table|
  {
    var r := FirstUse(UsedVertices(table, ids));
    forall i | 0 <= i < |r| ensures r[i] in table {
      assert r[i] in UsedVertices(table, ids);
    }
    DistinctBound(r, table);
  }

  lemma VertexTableAppend(ps: seq<Vec3>, ns: seq<Vec3>, cs: seq<Vec4>, v: Vertex)
    requires |ns| == |ps| && |cs| == |ps|
    ensures VertexTable(ps + [v.pos], ns + [v.normal], cs + [v.color]) == VertexTable(ps, ns, cs) + [v]
  {
  }

  /** The first-use list grows by v exactly when v is new. */
  lemma FirstUseStep(used: seq<Vertex>, k: nat)
    requires k < |used|
    ensures FirstUse(used[..k + 1]) == if used[k] in FirstUse(used[..k]) then FirstUse(used[..k]) else FirstUse(used[..k]) + [used[k]]
  {
    assert used[..k + 1][..k] == used[..k];
  }

  /**
   * The key map of `deduplicate` after k indices: the new vertex list nt is
   * the first-use list of the vertices named so far, and the map finds each
   * of them, and only them, at its new index.
   */
  ghost predicate KeyMap(used: seq<Vertex>, k: nat, nt: seq<Vertex>, m: map<Vertex, nat>) {
    k <= |used| && nt == FirstUse(used[..k]) &&
    (forall v :: v in m <==> v in nt) &&
    (forall v | v in m :: m[v] < |nt| && nt[m[v]] == v)
  }

  /** The first k indices are renumbered into nt and name the same vertex as before; the rest are untouched. */
  ghost predicate Renumbered(used: seq<Vertex>, k: nat, nt: seq<Vertex>, ids: seq<nat>, ids0: seq<nat>) {
    k <= |used| && |ids| == |used| && |ids0| == |used| &&
    (forall j | 0 <= j < k :: ids[j] < |nt| && nt[ids[j]] == used[j]) &&
    (forall j | k <= j < |ids| :: ids[j] == ids0[j])
  }

  lemma KeyMapSeen(used: seq<Vertex>, k: nat, nt: seq<Vertex>, m: map<Vertex, nat>)
    requires k < |used| && KeyMap(used, k, nt, m) && used[k] in m
    ensures KeyMap(used, k + 1, nt, m)
  {
    FirstUseStep(used, k);
  }

  lemma KeyMapNew(used: seq<Vertex>, k: nat, nt: seq<Vertex>, m: map<Vertex, nat>)
    requires k < |used| && KeyMap(used, k, nt, m) && used[k] !in m
    ensures KeyMap(used, k + 1, nt + [used[k]], m[used[k] := |nt|])
  {
    FirstUseStep(used, k);
  }

  lemma RenumberStep(used: seq<Vertex>, k: nat, nt: seq<Vertex>, ids: seq<nat>, ids0: seq<nat>, i: nat)
    requires k < |used| && Renumbered(used, k, nt, ids, ids0) && i < |nt| && nt[i] == used[k]
    ensures Renumbered(used, k + 1, nt, ids[k := i], ids0)
  {
  }

  lemma RenumberGrow(used: seq<Vertex>, k: nat, nt: seq<Vertex>, ids: seq<nat>, ids0: seq<nat>, v: Vertex)
    requires Renumbered(used, k, nt, ids, ids0)
    ensures Renumbered(used, k, nt + [v], ids, ids0)
  {
  }

  /**
   * One index of `deduplicate`: the vertex it names is looked up by value;
   * a vertex seen before gets its earlier new index, a new one is appended
   * to the new buffers and numbered by their length.
   */
  method DedupStep(ghost used: seq<Vertex>, ghost ids0: seq<nat>, k: nat,
                   ps: seq<Vec3>, ns: seq<Vec3>, cs: seq<Vec4>, m: map<Vertex, nat>, ids: seq<nat>, v: Vertex)
    returns (ps': seq<Vec3>, ns': seq<Vec3>, cs': seq<Vec4>, m': map<Vertex, nat>, ids': seq<nat>)
    requires k < |used| && v == used[k] && |ns| == |ps| && |cs| == |ps|
    requires KeyMap(used, k, VertexTable(ps, ns, cs), m) && Renumbered(used, k, VertexTable(ps, ns, cs), ids, ids0)
    ensures |ns'| == |ps'| && |cs'| == |ps'|
    ensures KeyMap(used, k + 1, VertexTable(ps', ns', cs'), m') && Renumbered(used, k + 1, VertexTable(ps', ns', cs'), ids', ids0)
  {
    ghost var nt := VertexTable(ps, ns, cs);
    if v in m {
      KeyMapSeen(used, k, nt, m);
      RenumberStep(used, k, nt, ids, ids0, m[v]);
      ps', ns', cs', m', ids' := ps, ns, cs, m, ids[k := m[v]];
    } else {
      KeyMapNew(used, k, nt, m);
      RenumberGrow(used, k, nt, ids, ids0, v);
      RenumberStep(used, k, nt + [v], ids, ids0, |ps|);
      VertexTableAppend(ps, ns, cs, v);
      ps', ns', cs', m', ids' := ps + [v.pos], ns + [v.normal], cs + [v.color], m[v := |ps|], ids[k := |ps|];
    }
  }

  /**
   * `deduplicate`: every index is renumbered into new buffers that hold
   * each distinct vertex (position, normal and colour together) once, in
   * order of first use.  Every index still names the same vertex, and
   * vertices no index names are dropped.
   */
  method DeduplicateBuffers(ps0: seq<Vec3>, ns0: seq<Vec3>, cs0: seq<Vec4>, ids0: seq<nat>)
    returns (ps: seq<Vec3>, ns: seq<Vec3>, cs: seq<Vec4>, ids: seq<nat>)
    requires |ns0| == |ps0| && |cs0| == |ps0| && forall k | 0 <= k < |ids0| :: ids0[k] < |ps0|
    ensures |ns| == |ps| && |cs| == |ps| && |ids| == |ids0| && |ps| <= |ps0|
    ensures VertexTable(ps, ns, cs) == FirstUse(UsedVertices(VertexTable(ps0, ns0, cs0), ids0))
    ensures forall k | 0 <= k < |ids| :: ids[k] < |ps| && VertexTable(ps, ns, cs)[ids[k]] == VertexTable(ps0, ns0, cs0)[ids0[k]]
  {
    ghost var table := VertexTable(ps0, ns0, cs0);
    ghost var used := UsedVertices(table, ids0);
    var m: map<Vertex, nat> := map[];
    ps, ns, cs, ids := [], [], [], ids0;
    var k := 0;
    while k < |ids|
      invariant |ids| == |ids0| && k <= |ids|
      invariant |ns| == |ps| && |cs| == |ps|
      invariant KeyMap(used, k, VertexTable(ps, ns, cs), m) && Renumbered(used, k, VertexTable(ps, ns, cs), ids, ids0)
    {
      assert ids[k] == ids0[k];
      var i := ids[k];
      var v := Vertex(ps0[i], ns0[i], cs0[i]);
      assert v == used[k];
      ps, ns, cs, m, ids := DedupStep(used, ids0, k, ps, ns, cs, m, ids, v);
      k := k + 1;
    }
    assert used[..k] == used;
    FirstUseFits(table, ids0);
  }
}
