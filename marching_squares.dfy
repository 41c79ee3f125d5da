/**
 * The per-cell level logic shared by both terrace meshers,
 * crates/rg_terrain/src/surface/mesh.rs and crates/rg_terrain/src/mesher.rs.
 * The four quantised corner heights of a cell (top-left, top-right,
 * bottom-right, bottom-left; bit i of a mask is corner i) are visited level by
 * level from the highest down.  At each level the corners split into those at
 * the level, above it and below it; the marching-squares case is picked by
 * permuting the corner bits into one of five canonical masks.
 */
module MarchingSquares {
  import opened MeshData
  import opened Arith

  type Mask = bv8

  function Bit(b: bool): Mask { if b then 1 else 0 }

  /** Corners exactly at `height`. */
  function LevelMask(corners: seq<real>, height: real): Mask
    requires |corners| == 4
  {
    Bit(corners[0] == height) | (Bit(corners[1] == height) << 1) |
    (Bit(corners[2] == height) << 2) | (Bit(corners[3] == height) << 3)
  }

  /** Corners above `height`. */
  function UpMask(corners: seq<real>, height: real): Mask
    requires |corners| == 4
  {
    Bit(corners[0] > height) | (Bit(corners[1] > height) << 1) |
    (Bit(corners[2] > height) << 2) | (Bit(corners[3] > height) << 3)
  }

  /** Corners below `height`. */
  function DownMask(corners: seq<real>, height: real): Mask
    requires |corners| == 4
  {
    Bit(corners[0] < height) | (Bit(corners[1] < height) << 1) |
    (Bit(corners[2] < height) << 2) | (Bit(corners[3] < height) << 3)
  }

  /** Three masks over the four corners that are pairwise disjoint and together cover all four. */
  predicate Partition(mask: Mask, up: Mask, down: Mask) {
    (mask & up) == 0 && (mask & down) == 0 && (up & down) == 0 && (mask | up | down) == 15
  }

  /**
   * At any height the three masks partition the corners, and at the height
   * of one of the corners the level mask is not empty.
   */
  lemma LevelMasksPartition(corners: seq<real>, height: real)
    requires |corners| == 4
    ensures Partition(LevelMask(corners, height), UpMask(corners, height), DownMask(corners, height))
    ensures height in corners ==> LevelMask(corners, height) != 0
    ensures LevelMask(corners, height) < 16
  {
  }

  // ---------------------------------------------------------------------
  // Sorting the corner heights, highest first

  predicate Descending(s: seq<real>) {
    forall a, b | 0 <= a < b < |s| :: s[a] >= s[b]
  }

  /** A head no lower than the first of a descending tail keeps the sequence descending. */
  lemma DescendingCons(h: real, t: seq<real>)
    requires Descending(t) && (t == [] || h >= t[0])
    ensures Descending([h] + t)
  {
    var s := [h] + t;
    forall a, b | 0 <= a < b < |s| ensures s[a] >= s[b] {
      if a == 0 {
        assert s[b] == t[b - 1] && t[0] >= t[b - 1];
      } else {
        assert s[a] == t[a - 1] && s[b] == t[b - 1];
      }
    }
  }

  /** The tail of a descending sequence is descending. */
  lemma DescendingTail(s: seq<real>)
    requires Descending(s) && s != []
    ensures Descending(s[1..])
  {
    var t := s[1..];
    forall a, b | 0 <= a < b < |t| ensures t[a] >= t[b] {
      assert t[a] == s[a + 1] && t[b] == s[b + 1];
    }
  }

  /** Putting the head back in front of the tail with x inserted. */
  lemma InsertBehindHead(x: real, s: seq<real>, rest: seq<real>)
    requires Descending(s) && s != [] && x < s[0]
    requires Descending(rest) && multiset(rest) == multiset(s[1..]) + multiset{x}
    requires rest != [] && (rest[0] == x || (|s| > 1 && rest[0] == s[1]))
    ensures Descending([s[0]] + rest) && multiset([s[0]] + rest) == multiset(s) + multiset{x}
  {
    if rest[0] != x {
      assert s[0] >= s[1];
    }
    DescendingCons(s[0], rest);
    assert s == [s[0]] + s[1..];
  }

  function Insert(x: real, s: seq<real>): (r: seq<real>)
    requires Descending(s)
    ensures Descending(r) && multiset(r) == multiset(s) + multiset{x}
    ensures |r| == |s| + 1 && (r[0] == x || (s != [] && r[0] == s[0]))
  {
    if s == [] then [x]
    else if x >= s[0] then
      DescendingCons(x, s);
      [x] + s
    else
      DescendingTail(s);
      var rest := Insert(x, s[1..]);
      InsertBehindHead(x, s, rest);
      [s[0]] + rest
  }

  /** `sort_unstable_by(|a, b| total_cmp(b, a))`: the heights rearranged highest first. */
  function SortDescending(s: seq<real>): (r: seq<real>)
    ensures Descending(r) && multiset(r) == multiset(s)
  {
    if s == [] then []
    else
      assert s == [s[0]] + s[1..];
      Insert(s[0], SortDescending(s[1..]))
  }

  /**
   * The inner loop of `generate_cell`: take the height at i and step past
   * every copy of it.
   */
  method NextLevel(heights: seq<real>, i: nat) returns (height: real, next: nat)
    requires i < |heights| && Descending(heights)
    ensures height == heights[i] && i < next <= |heights|
    ensures forall k | i <= k < next :: heights[k] == height
    ensures next < |heights| ==> heights[next] < height
  {
    height := heights[i];
    next := i + 1;
    while next < |heights| && heights[next] == height
      invariant i < next <= |heights|
      invariant forall k | i <= k < next :: heights[k] == height
    {
      next := next + 1;
    }
  }

  predicate StrictlyDescending(s: seq<real>) {
    forall a, b | 0 <= a < b < |s| :: s[a] > s[b]
  }

  /**
   * What `generate_cell` visits: each distinct corner height once, highest
   * first, each with the height of the level above it (`up_height`): the top
   * height plus 100 for the first level, the previous level afterwards.
   */
  ghost predicate LevelsOf(corners: seq<real>, levels: seq<real>, ups: seq<real>) {
    StrictlyDescending(levels) && (forall h :: h in levels <==> h in corners) &&
    |ups| == |levels| &&
    (forall k | 0 < k < |levels| :: ups[k] == levels[k - 1]) &&
    (|levels| > 0 ==> ups[0] == levels[0] + 100.0)
  }

  /**
   * At every visited level the level, up and down masks partition the
   * corners and the level mask is not empty.
   */
  lemma LevelsPartition(corners: seq<real>, levels: seq<real>, ups: seq<real>)
    requires |corners| == 4 && LevelsOf(corners, levels, ups)
    ensures forall k | 0 <= k < |levels| ::
      Partition(LevelMask(corners, levels[k]), UpMask(corners, levels[k]), DownMask(corners, levels[k])) &&
      LevelMask(corners, levels[k]) != 0
  {
    forall k | 0 <= k < |levels|
      ensures Partition(LevelMask(corners, levels[k]), UpMask(corners, levels[k]), DownMask(corners, levels[k]))
      ensures LevelMask(corners, levels[k]) != 0
    {
      assert levels[k] in levels;
      LevelMasksPartition(corners, levels[k]);
    }
  }

  /**
   * The loop invariant of `generate_cell` after the sorted heights below i
   * have been visited: the visited levels are the distinct heights among
   * them, and the next height, if any, is below every visited level.
   */
  ghost predicate VisitedUpTo(heights: seq<real>, i: nat, levels: seq<real>, ups: seq<real>, upHeight: real)
    requires i <= |heights| && |heights| > 0
  {
    StrictlyDescending(levels) && (forall h :: h in levels <==> h in heights[..i]) &&
    |ups| == |levels| &&
    (forall k | 0 < k < |levels| :: ups[k] == levels[k - 1]) &&
    (|levels| > 0 ==> ups[0] == levels[0] + 100.0 && levels[0] == heights[0] && upHeight == levels[|levels| - 1]) &&
    (|levels| == 0 ==> i == 0 && upHeight == heights[0] + 100.0) &&
    (i < |heights| && |levels| > 0 ==> heights[i] < levels[|levels| - 1])
  }

  lemma VisitedStart(heights: seq<real>)
    requires |heights| > 0
    ensures VisitedUpTo(heights, 0, [], [], heights[0] + 100.0)
  {
  }

  /** One turn of the `generate_cell` loop keeps the invariant. */
  lemma VisitedStep(heights: seq<real>, i: nat, next: nat, height: real, levels: seq<real>, ups: seq<real>, upHeight: real)
    requires i < |heights| && Descending(heights) && VisitedUpTo(heights, i, levels, ups, upHeight)
    requires height == heights[i] && i < next <= |heights|
    requires forall k | i <= k < next :: heights[k] == height
    requires next < |heights| ==> heights[next] < height
    ensures VisitedUpTo(heights, next, levels + [height], ups + [upHeight], height)
  {
    var l' := levels + [height];
    forall h ensures h in l' <==> h in heights[..next] {
      if h in heights[..next] {
        var k :| 0 <= k < next && heights[..next][k] == h;
        if k < i {
          assert heights[..i][k] == h;
        }
      }
      if h in levels {
        var k :| 0 <= k < i && heights[..i][k] == h;
        assert heights[..next][k] == h;
      } else if h == height {
        assert heights[..next][i] == h;
      }
    }
    if |levels| == 0 {
      assert i == 0;
    }
  }

  lemma VisitedEnd(corners: seq<real>, heights: seq<real>, levels: seq<real>, ups: seq<real>, upHeight: real)
    requires |corners| == 4 && multiset(heights) == multiset(corners)
    requires |heights| == 4 && VisitedUpTo(heights, |heights|, levels, ups, upHeight)
    ensures LevelsOf(corners, levels, ups)
  {
    assert heights[..|heights|] == heights;
    forall h ensures h in heights <==> h in corners {
      assert h in heights <==> h in multiset(heights);
      assert h in corners <==> h in multiset(corners);
    }
  }

  // ---------------------------------------------------------------------
  // Canonical cases

  /** `ms_transform_masks`, rotation: bit i + 1 moves to bit i (a 4-cycle). */
  function Rotate(m: Mask): Mask {
    (((m >> 1) & 1) << 0) | (((m >> 2) & 1) << 1) | (((m >> 3) & 1) << 2) | (((m >> 0) & 1) << 3)
  }

  /** Mirror in x: corners 0 and 1 swap, and so do 2 and 3. */
  function FlipX(m: Mask): Mask {
    (((m >> 1) & 1) << 0) | (((m >> 0) & 1) << 1) | (((m >> 3) & 1) << 2) | (((m >> 2) & 1) << 3)
  }

  /** Mirror in y: corners 0 and 3 swap, and so do 1 and 2. */
  function FlipY(m: Mask): Mask {
    (((m >> 3) & 1) << 0) | (((m >> 2) & 1) << 1) | (((m >> 1) & 1) << 2) | (((m >> 0) & 1) << 3)
  }

  /** The flags a case is drawn with. */
  datatype Flags = Flags(flipX: bool, flipY: bool, rotate: bool)

  /** `ms_transform_masks` on one mask: rotate, then flip in x, then flip in y. */
  function Transform(m: Mask, f: Flags): Mask {
    var r := if f.rotate then Rotate(m) else m;
    var x := if f.flipX then FlipX(r) else r;
    if f.flipY then FlipY(x) else x
  }

  function PopCount(m: Mask): Mask {
    (m & 1) + ((m >> 1) & 1) + ((m >> 2) & 1) + ((m >> 3) & 1)
  }

  /**
   * The three permutations are bijections on the four corner bits: rotation
   * has order 4 and each flip is its own inverse; a transformed mask has as
   * many corners as the original.
   */
  lemma PermutationsOfCorners(m: Mask, f: Flags)
    requires m < 16
    ensures Rotate(Rotate(Rotate(Rotate(m)))) == m
    ensures FlipX(FlipX(m)) == m && FlipY(FlipY(m)) == m
    ensures Transform(m, f) < 16 && PopCount(Transform(m, f)) == PopCount(m)
  {
  }

  /** Transforming all three masks of a level by the same flags keeps them a partition. */
  lemma TransformKeepsPartition(mask: Mask, up: Mask, down: Mask, f: Flags)
    requires Partition(mask, up, down)
    ensures Partition(Transform(mask, f), Transform(up, f), Transform(down, f))
  {
    var m1, u1, d1 := mask, up, down;
    if f.rotate {
      RotateKeepsPartition(m1, u1, d1);
      m1, u1, d1 := Rotate(m1), Rotate(u1), Rotate(d1);
    }
    var m2, u2, d2 := m1, u1, d1;
    if f.flipX {
      FlipXKeepsPartition(m2, u2, d2);
      m2, u2, d2 := FlipX(m2), FlipX(u2), FlipX(d2);
    }
    if f.flipY {
      FlipYKeepsPartition(m2, u2, d2);
    }
  }

  lemma RotateKeepsPartition(mask: Mask, up: Mask, down: Mask)
    requires Partition(mask, up, down)
    ensures Partition(Rotate(mask), Rotate(up), Rotate(down))
  {
  }

  lemma FlipXKeepsPartition(mask: Mask, up: Mask, down: Mask)
    requires Partition(mask, up, down)
    ensures Partition(FlipX(mask), FlipX(up), FlipX(down))
  {
  }

  lemma FlipYKeepsPartition(mask: Mask, up: Mask, down: Mask)
    requires Partition(mask, up, down)
    ensures Partition(FlipY(mask), FlipY(up), FlipY(down))
  {
  }

  /** The case routines: 1, 3, 5, 7 and 15. */
  predicate IsCanonical(m: Mask) {
    m == 1 || m == 3 || m == 5 || m == 7 || m == 15
  }

  /** The flags `marching_squares` sets for a mask. */
  function FlagsFor(mask: Mask): Flags {
    if mask == 2 then Flags(true, false, false)
    else if mask == 4 then Flags(true, true, false)
    else if mask == 6 then Flags(false, false, true)
    else if mask == 8 then Flags(false, true, false)
    else if mask == 9 then Flags(false, true, true)
    else if mask == 10 then Flags(false, true, false)
    else if mask == 11 then Flags(true, false, false)
    else if mask == 12 then Flags(false, true, false)
    else if mask == 13 then Flags(false, true, true)
    else if mask == 14 then Flags(false, false, true)
    else Flags(false, false, false)
  }

  /** The case routine `marching_squares` calls for a mask (0 for none). */
  function CaseFor(mask: Mask): Mask {
    if mask == 1 || mask == 2 || mask == 4 || mask == 8 then 1
    else if mask == 3 || mask == 6 || mask == 9 || mask == 12 then 3
    else if mask == 5 || mask == 10 then 5
    else if mask == 7 || mask == 11 || mask == 13 || mask == 14 then 7
    else if mask == 15 then 15
    else 0
  }

  /**
   * For every non-empty mask, the flags chosen turn it into exactly the
   * canonical mask of the case routine called.
   */
  lemma CanonicalCases(mask: Mask)
    requires 0 < mask < 16
    ensures IsCanonical(CaseFor(mask))
    ensures Transform(mask, FlagsFor(mask)) == CaseFor(mask)
  {
  }
  /**
   * What the flags chosen for a level do to its masks: the all-false flags
   * leave them alone, a non-empty mask becomes canonical and a partition
   * stays one.
   */
  lemma SelectedMasks(mask: Mask, up: Mask, down: Mask)
    ensures FlagsFor(mask) == Flags(false, false, false) ==>
      Transform(mask, FlagsFor(mask)) == mask && Transform(up, FlagsFor(mask)) == up && Transform(down, FlagsFor(mask)) == down
    ensures 0 < mask < 16 ==> IsCanonical(Transform(mask, FlagsFor(mask)))
    ensures Partition(mask, up, down) ==>
      Partition(Transform(mask, FlagsFor(mask)), Transform(up, FlagsFor(mask)), Transform(down, FlagsFor(mask)))
  {
    if 0 < mask < 16 {
      CanonicalCases(mask);
    }
    if Partition(mask, up, down) {
      TransformKeepsPartition(mask, up, down, FlagsFor(mask));
    }
  }

  // ---------------------------------------------------------------------
  // Moving the drawn points with the masks

  /** Corner i of the unit cell in the plane of the cell. */
  function Corner(i: nat): Vec2
    requires i < 4
  {
    [Vec2(0.0, 0.0), Vec2(1.0, 0.0), Vec2(1.0, 1.0), Vec2(0.0, 1.0)][i]
  }

  function CornerBit(i: nat): Mask
    requires i < 4
  {
    [1, 2, 4, 8][i]
  }

  predicate HasCorner(m: Mask, i: nat)
    requires i < 4
  {
    (m & CornerBit(i)) != 0
  }

  /**
   * `ms_transform_point` in the plane of the cell: flip in x, then flip in
   * y, then rotate by a quarter turn.
   */
  function TransformPoint(p: Vec2, f: Flags): Vec2 {
    var a := if f.flipX then Vec2(1.0 - p.x, p.y) else p;
    var b := if f.flipY then Vec2(a.x, 1.0 - a.y) else a;
    if f.rotate then Vec2(1.0 - b.y, b.x) else b
  }

  /** The original corner that a corner of the transformed masks stands for. */
  function SourceCorner(i: nat, f: Flags): (r: nat)
    requires i < 4
    ensures r < 4
  {
    var a := if f.flipY then 3 - i else i;
    var b := if f.flipX then [1, 0, 3, 2][a] else a;
    if f.rotate then (b + 1) % 4 else b
  }

  /**
   * The masks and the points move together: corner i of the transformed
   * mask is the corner SourceCorner(i) of the original mask, and the point
   * drawn at corner i lands on that very corner.  So what a case routine
   * draws around its canonical corners ends up around the corners the level
   * actually has.
   */
  lemma MasksAndPointsAgree(m: Mask, f: Flags, i: nat)
    requires i < 4
    ensures HasCorner(Transform(m, f), i) == HasCorner(m, SourceCorner(i, f))
    ensures TransformPoint(Corner(i), f) == Corner(SourceCorner(i, f))
  {
  }

  /** Twice the signed area of the triangle a, b, c. */
  function Orient(a: Vec2, b: Vec2, c: Vec2): real {
    (b.x - a.x) * (c.y - a.y) - (b.y - a.y) * (c.x - a.x)
  }

  /** `Orient` at points given by their coordinates. */
  lemma OrientAt(x0: real, y0: real, x1: real, y1: real, x2: real, y2: real)
    ensures Orient(Vec2(x0, y0), Vec2(x1, y1), Vec2(x2, y2)) == (x1 - x0) * (y2 - y0) - (y1 - y0) * (x2 - x0)
  {
  }

  lemma OrientFlipX(a: Vec2, b: Vec2, c: Vec2)
    ensures Orient(Vec2(1.0 - a.x, a.y), Vec2(1.0 - b.x, b.y), Vec2(1.0 - c.x, c.y)) == -Orient(a, b, c)
  {
  }

  lemma OrientFlipY(a: Vec2, b: Vec2, c: Vec2)
    ensures Orient(Vec2(a.x, 1.0 - a.y), Vec2(b.x, 1.0 - b.y), Vec2(c.x, 1.0 - c.y)) == -Orient(a, b, c)
  {
  }

  lemma OrientRotate(a: Vec2, b: Vec2, c: Vec2)
    ensures Orient(Vec2(1.0 - a.y, a.x), Vec2(1.0 - b.y, b.x), Vec2(1.0 - c.y, c.x)) == Orient(a, b, c)
  {
  }

  /**
   * Each flip mirrors the winding of a triangle and the rotation keeps it,
   * so the transformed triangle is wound the other way exactly when one of
   * the two flips is set.
   */
  lemma TransformOrientation(a: Vec2, b: Vec2, c: Vec2, f: Flags)
    ensures Orient(TransformPoint(a, f), TransformPoint(b, f), TransformPoint(c, f)) ==
      if f.flipX != f.flipY then -Orient(a, b, c) else Orient(a, b, c)
  {
    var a1 := if f.flipX then Vec2(1.0 - a.x, a.y) else a;
    var b1 := if f.flipX then Vec2(1.0 - b.x, b.y) else b;
    var c1 := if f.flipX then Vec2(1.0 - c.x, c.y) else c;
    if f.flipX { OrientFlipX(a, b, c); }
    var a2 := if f.flipY then Vec2(a1.x, 1.0 - a1.y) else a1;
    var b2 := if f.flipY then Vec2(b1.x, 1.0 - b1.y) else b1;
    var c2 := if f.flipY then Vec2(c1.x, 1.0 - c1.y) else c1;
    if f.flipY { OrientFlipY(a1, b1, c1); }
    if f.rotate { OrientRotate(a2, b2, c2); }
  }

  /** Swapping two vertices reverses the winding. */
  lemma OrientSwap(a: Vec2, b: Vec2, c: Vec2)
    ensures Orient(a, c, b) == -Orient(a, b, c)
  {
  }

  // ---------------------------------------------------------------------
  // Heights and drawing calls

  /** `get_quantized_height`: the height rounded down to a multiple of the step. */
  function Quantize(h: real, step: real): (r: real)
    requires step > 0.0
    ensures r <= h < r + step
  {
    var q := (h / step).Floor;
    FloorBounds(h, step, q);
    q as real * step
  }

  /** One drawing call of a marching-squares case, with its corners in the canonical cell. */
  datatype Shape =
    | Triangle(a: Vec2, b: Vec2, c: Vec2)
    | Quad(a: Vec2, b: Vec2, c: Vec2, d: Vec2)
    | Wall(from: Vec2, to: Vec2)

  /** The ground a drawing call covers is wound positively in the canonical cell (walls are not ground). */
  predicate FacesUp(s: Shape) {
    match s
    case Triangle(a, b, c) => Orient(a, b, c) > 0.0
    case Quad(a, b, c, d) => Orient(a, b, c) > 0.0 && Orient(a, c, d) > 0.0
    case Wall(_, _) => true
  }

  predicate AllFaceUp(shapes: seq<Shape>) {
    forall k | 0 <= k < |shapes| :: FacesUp(shapes[k])
  }

  /** Shapes that are walls or drawn from a pool of shapes facing up all face up. */
  lemma AllFaceUpWithin(s: seq<Shape>, pool: seq<Shape>)
    requires AllFaceUp(pool)
    requires forall k | 0 <= k < |s| :: s[k].Wall? || s[k] in pool
    ensures AllFaceUp(s)
  {
  }
}
