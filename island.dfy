/**
 * The island mask pipeline of crates/rg_worldgen/src/island.rs: hole filling
 * and small-island removal built on the flood fill, the land-fraction test,
 * the random 2x upsampling and the retry loop that strings them together.
 *
 * All masks here are built by `Grid::new`, so they sit at the zero origin.
 * The random generator is an oracle: `coin(n, a, b)` is the outcome of the
 * n-th `gen_bool(p)` call, made with p = a / b.  The probability is handed
 * over as this exact fraction; `gen_bool` is always true for p = 1 and false
 * for p = 0.
 */
module Island {
  import opened Wrappers
  import opened Grids
  import opened Connectivity
  import opened Floodfill
  import GridOps

  // ---------------------------------------------------------------------
  // Flood fill regions as components

  /**
   * When every source cell holding sv is inside at the start (the destination
   * does not hold dv there), the fill region is exactly the sv-component of
   * the seed.
   */
  lemma ReachIsLinked(k: Setup, c: IVec2)
    requires forall d | Get(k.src, d) == Some(k.sv) :: Get(k.dst0, d) != Some(k.dv)
    ensures Reach(k, c) <==> Linked(k.src, k.sv, k.pos, c)
  {
    if Reach(k, c) {
      var p :| IsPath(k, p) && p[|p| - 1] == c;
      assert WalkBetween(k.src, k.sv, p, k.pos, c);
    }
    if Linked(k.src, k.sv, k.pos, c) {
      var p :| WalkBetween(k.src, k.sv, p, k.pos, c);
      assert IsPath(k, p);
    }
  }

  /** Every fill region lies inside the sv-component of the seed. */
  lemma ReachIsInComponent(k: Setup, c: IVec2)
    requires Reach(k, c)
    ensures Linked(k.src, k.sv, k.pos, c)
  {
    var p :| IsPath(k, p) && p[|p| - 1] == c;
    assert WalkBetween(k.src, k.sv, p, k.pos, c);
  }

  /** A prefix of a walk is a walk. */
  lemma WalkPrefix(g: GridValue<bool>, v: bool, p: seq<IVec2>, i: int)
    requires IsWalk(g, v, p) && 0 <= i < |p|
    ensures Linked(g, v, p[0], p[i])
  {
    assert WalkBetween(g, v, p[..i + 1], p[0], p[i]);
  }

  // ---------------------------------------------------------------------
  // remove_holes

  /**
   * r is `g` with its holes filled: a cell stays false exactly when it is
   * 4-connected to (0, 0) through false cells; every other cell is true.
   */
  ghost predicate HolesRemoved(g: GridValue<bool>, r: GridValue<bool>) {
    r.origin == g.origin && r.size == g.size &&
    forall c | Contains(g, c) :: Get(r, c) == Some(!Linked(g, false, Zero, c))
  }

  /** `remove_holes`: flood the sea from (0, 0) into an all-land mask. */
  method RemoveHoles(grid: Grid<bool>)
    requires grid.Valid() && grid.origin == Zero
    requires grid.size.x < I32Max && grid.size.y < I32Max
    modifies grid
    ensures grid.Valid() && fresh(grid.data)
    ensures HolesRemoved(old(grid.Value()), grid.Value())
  {
    var island := new Grid.New(grid.size, true);
    ghost var all := island.Value();
    ghost var k := Setup(grid.Value(), false, all, false, Zero);
    forall d | Contains(all, d) ensures Get(all, d) == Some(true) {
      IndexInBounds(all, d);
    }
    var _ := Fill(grid, false, island, false, Zero);
    forall c | Contains(k.src, c) ensures Get(island.Value(), c) == Some(!Linked(k.src, false, Zero, c)) {
      ReachIsLinked(k, c);
    }
    grid.origin, grid.size, grid.data := island.origin, island.size, island.data;
  }

  /** Filling holes never turns land into sea. */
  lemma RemoveHolesKeepsLand(g: GridValue<bool>, r: GridValue<bool>, c: IVec2)
    requires HolesRemoved(g, r) && Get(g, c) == Some(true)
    ensures Get(r, c) == Some(true)
  {
    if Linked(g, false, Zero, c) {
      LinkedEnds(g, false, Zero, c);
    }
  }

  /** Filling holes twice is filling them once: the result has no holes left. */
  lemma RemoveHolesIdempotent(g: GridValue<bool>, r: GridValue<bool>)
    requires HolesRemoved(g, r)
    ensures HolesRemoved(r, r)
  {
    forall c | Contains(r, c) ensures Get(r, c) == Some(!Linked(r, false, Zero, c)) {
      if Linked(g, false, Zero, c) {
        var p :| WalkBetween(g, false, p, Zero, c);
        forall i | 0 <= i < |p| ensures Get(r, p[i]) == Some(false) {
          WalkPrefix(g, false, p, i);
          LinkedEnds(g, false, Zero, p[i]);
        }
        assert WalkBetween(r, false, p, Zero, c);
      } else if Linked(r, false, Zero, c) {
        LinkedEnds(r, false, Zero, c);
      }
    }
  }

  // ---------------------------------------------------------------------
  // check_total_area

  /** `iter().filter(|v| **v).count()`. */
  function CountTrue(s: seq<bool>): (n: nat)
    ensures n == multiset(s)[true]
  {
    if s == [] then 0
    else
      assert s == s[..|s| - 1] + [s[|s| - 1]];
      CountTrue(s[..|s| - 1]) + (if s[|s| - 1] then 1 else 0)
  }

  /**
   * `check_total_area`: the fraction of land cells lies in [min, max].  An
   * empty grid gives 0 / 0, which is NaN in f32, and fails both comparisons.
   */
  function CheckTotalArea(g: GridValue<bool>, minArea: real, maxArea: real): (ok: bool)
    ensures ok <==> (g.size.Area() > 0 &&
                     minArea <= (multiset(g.cells)[true] as real) / (g.size.Area() as real) <= maxArea)
  {
    var count := CountTrue(g.cells);
    if g.size.x * g.size.y == 0 then false
    else
      var area := (count as real) / ((g.size.x * g.size.y) as real);
      minArea <= area && area <= maxArea
  }

  // ---------------------------------------------------------------------
  // remove_small_islands

  /**
   * `count / width / height` in f32 arithmetic, taken as exact.  It is only
   * evaluated for a cell of the grid, so the size is never zero there.
   */
  function IslandArea(count: nat, size: UVec2): real {
    if size.x == 0 || size.y == 0 then 0.0 else (count as real) / (size.x as real) / (size.y as real)
  }

  /** The land component of c covers less than `min_island_area` of the grid. */
  ghost predicate Small(g: GridValue<bool>, minArea: real, c: IVec2) {
    IslandArea(|Component(g, true, c)|, g.size) < minArea
  }

  /** r is g without its small islands: a cell is land exactly when it is land in a component that is not small. */
  ghost predicate SmallIslandsRemoved(g: GridValue<bool>, r: GridValue<bool>, minArea: real) {
    r.origin == g.origin && r.size == g.size &&
    forall c | Contains(g, c) :: Get(r, c) == Some(At(g, c) && !Small(g, minArea, c))
  }

  predicate SameShape(a: GridValue<bool>, b: GridValue<bool>) {
    a.origin == b.origin && a.size == b.size
  }

  /** Only land is ever visited. */
  ghost predicate VisitedLand(g: GridValue<bool>, v: GridValue<bool>) {
    forall c | Get(v, c) == Some(true) :: Get(g, c) == Some(true)
  }

  /** Islands are visited whole. */
  ghost predicate VisitedClosed(g: GridValue<bool>, v: GridValue<bool>) {
    forall c, d | Get(v, c) == Some(true) && Linked(g, true, c, d) :: Get(v, d) == Some(true)
  }

  /** The mask so far: land is cleared exactly on the visited small islands. */
  ghost predicate KeptSoFar(g: GridValue<bool>, v: GridValue<bool>, r: GridValue<bool>, minArea: real) {
    forall c | Contains(g, c) :: Get(r, c) == Some(At(g, c) && !(Get(v, c) == Some(true) && Small(g, minArea, c)))
  }

  /** Every land cell before position i of the scan has been visited. */
  ghost predicate VisitedUpTo(g: GridValue<bool>, v: GridValue<bool>, i: int) {
    forall c | Contains(g, c) && Index(g, c) < i && Get(g, c) == Some(true) :: Get(v, c) == Some(true)
  }

  ghost predicate SmallInv(g: GridValue<bool>, v: GridValue<bool>, r: GridValue<bool>, minArea: real, i: int) {
    SameShape(g, v) && SameShape(g, r) &&
    VisitedLand(g, v) && VisitedClosed(g, v) && KeptSoFar(g, v, r, minArea) && VisitedUpTo(g, v, i)
  }

  /**
   * `remove_small_islands`: scan the cells in row-major order; from each
   * unvisited land cell, flood the visited mask over its island and count it,
   * and when the island covers less than `min_island_area` of the grid, flood
   * it back to sea in the mask.
   */
  method RemoveSmallIslands(grid: Grid<bool>, minArea: real)
    requires grid.Valid() && grid.origin == Zero
    requires grid.size.x < I32Max && grid.size.y < I32Max
    modifies grid.data
    ensures grid.Valid()
    ensures SmallIslandsRemoved(old(grid.Value()), grid.Value(), minArea)
  {
    ghost var g := grid.Value();
    var visited := new Grid.New(grid.size, false);
    SmallStart(g, visited.Value(), minArea);
    var i := 0;
    while i < visited.data.Length
      invariant 0 <= i <= |g.cells| && grid.Valid() && visited.Valid() && fresh(visited.data)
      invariant SmallInv(g, visited.Value(), grid.Value(), minArea, i)
    {
      var cell := CellAt(Zero, grid.size, i);
      CellAtInBounds(g, i);
      if visited.data[i] || !grid.data[i] {
        SkipCell(g, visited.Value(), grid.Value(), minArea, cell, i);
      } else {
        VisitIsland(grid, visited, minArea, cell, i, g);
      }
      i := i + 1;
    }
    SmallDone(g, visited.Value(), grid.Value(), minArea);
  }

  /** An island that survives keeps its exact shape: removal cuts no surviving component. */
  lemma KeptComponent(g: GridValue<bool>, r: GridValue<bool>, minArea: real, c: IVec2)
    requires SmallIslandsRemoved(g, r, minArea) && Get(r, c) == Some(true)
    ensures Component(r, true, c) == Component(g, true, c)
    ensures !Small(r, minArea, c)
  {
    assert !Small(g, minArea, c);
    forall d | Linked(r, true, c, d) ensures Linked(g, true, c, d) {
      var p :| WalkBetween(r, true, p, c, d);
      assert WalkBetween(g, true, p, c, d);
    }
    forall d | Linked(g, true, c, d) ensures Linked(r, true, c, d) {
      var p :| WalkBetween(g, true, p, c, d);
      forall j | 0 <= j < |p| ensures Get(r, p[j]) == Some(true) {
        WalkPrefix(g, true, p, j);
        SameComponent(g, true, c, p[j]);
      }
      assert WalkBetween(r, true, p, c, d);
    }
    CellsEnumerate(r);
    CellsEnumerate(g);
  }

  /** Every island left covers at least `min_island_area` of the grid. */
  lemma LargeIslandsRemain(g: GridValue<bool>, r: GridValue<bool>, minArea: real)
    requires SmallIslandsRemoved(g, r, minArea)
    ensures forall c | Get(r, c) == Some(true) :: !Small(r, minArea, c)
  {
    forall c | Get(r, c) == Some(true) ensures !Small(r, minArea, c) {
      KeptComponent(g, r, minArea, c);
    }
  }

  /** Removing small islands twice is removing them once. */
  lemma RemoveSmallIslandsIdempotent(g: GridValue<bool>, r: GridValue<bool>, minArea: real)
    requires SmallIslandsRemoved(g, r, minArea)
    ensures SmallIslandsRemoved(r, r, minArea)
  {
    forall c | Contains(r, c) ensures Get(r, c) == Some(At(r, c) && !Small(r, minArea, c)) {
      if At(r, c) {
        KeptComponent(g, r, minArea, c);
      }
    }
  }

  /** The body of the scan for an unvisited land cell. */
  method VisitIsland(grid: Grid<bool>, visited: Grid<bool>, minArea: real, cell: IVec2, i: nat, ghost g: GridValue<bool>)
    requires grid.Valid() && visited.Valid() && grid.data != visited.data
    requires SmallInv(g, visited.Value(), grid.Value(), minArea, i)
    requires Contains(g, cell) && Index(g, cell) == i
    requires Get(visited.Value(), cell) == Some(false) && Get(grid.Value(), cell) == Some(true)
    modifies grid.data, visited.data
    ensures grid.Valid() && visited.Valid()
    ensures SmallInv(g, visited.Value(), grid.Value(), minArea, i + 1)
  {
    ghost var v0 := visited.Value();
    ghost var r0 := grid.Value();
    var count := Fill(grid, true, visited, true, cell);
    ghost var k1 := Setup(r0, true, v0, true, cell);
    FirstFill(g, v0, r0, minArea, cell);
    RegionIsComponent(k1, g, cell);
    var area := (count as real) / (grid.size.x as real) / (grid.size.y as real);
    assert area == IslandArea(|Component(g, true, cell)|, g.size);
    ghost var v1 := visited.Value();
    VisitedIsComponent(g, v0, v1, k1);
    if area < minArea {
      var _ := Fill(visited, true, grid, false, cell);
      SecondFill(g, v0, r0, v1, minArea, cell);
    }
    VisitPreserves(g, v0, r0, v1, grid.Value(), minArea, cell, i);
  }

  lemma SmallStart(g: GridValue<bool>, v: GridValue<bool>, minArea: real)
    requires SameShape(g, v) && forall j | 0 <= j < |v.cells| :: v.cells[j] == false
    ensures SmallInv(g, v, g, minArea, 0)
  {
    forall c | Contains(v, c) ensures Get(v, c) == Some(false) {
      IndexRange(v, c);
    }
    forall c | Contains(g, c) && Index(g, c) < 0 ensures false {
      IndexRange(g, c);
    }
  }

  lemma SkipCell(g: GridValue<bool>, v: GridValue<bool>, r: GridValue<bool>, minArea: real, cell: IVec2, i: int)
    requires SmallInv(g, v, r, minArea, i) && Contains(g, cell) && Index(g, cell) == i
    requires Get(v, cell) == Some(true) || Get(r, cell) == Some(false)
    ensures SmallInv(g, v, r, minArea, i + 1)
  {
    forall c | Contains(g, c) && Index(g, c) < i + 1 && Get(g, c) == Some(true) ensures Get(v, c) == Some(true) {
      if Index(g, c) == i {
        IndexInjective(g, c, cell);
      }
    }
  }

  lemma SmallDone(g: GridValue<bool>, v: GridValue<bool>, r: GridValue<bool>, minArea: real)
    requires SmallInv(g, v, r, minArea, |g.cells|)
    ensures SmallIslandsRemoved(g, r, minArea)
  {
    forall c | Contains(g, c) ensures Get(r, c) == Some(At(g, c) && !Small(g, minArea, c)) {
      IndexRange(g, c);
    }
  }

  /** A visited cell cannot be linked to an unvisited one. */
  lemma UnvisitedIsland(g: GridValue<bool>, v: GridValue<bool>, cell: IVec2, c: IVec2)
    requires VisitedClosed(g, v) && Get(v, cell) == Some(false) && Linked(g, true, cell, c)
    ensures Get(v, c) != Some(true)
  {
    LinkedSym(g, true, cell, c);
  }

  /** The first fill from an unvisited land cell floods exactly its island. */
  lemma FirstFill(g: GridValue<bool>, v: GridValue<bool>, r: GridValue<bool>, minArea: real, cell: IVec2)
    requires SmallInv(g, v, r, minArea, 0)
    requires Get(v, cell) == Some(false) && Get(r, cell) == Some(true)
    ensures forall c :: Reach(Setup(r, true, v, true, cell), c) <==> Linked(g, true, cell, c)
  {
    var k := Setup(r, true, v, true, cell);
    forall c ensures Reach(k, c) <==> Linked(g, true, cell, c) {
      if Reach(k, c) {
        var p :| IsPath(k, p) && p[|p| - 1] == c;
        assert WalkBetween(g, true, p, cell, c);
      }
      if Linked(g, true, cell, c) {
        var p :| WalkBetween(g, true, p, cell, c);
        forall j | 0 <= j < |p| ensures Inside0(k, p[j]) {
          WalkPrefix(g, true, p, j);
          UnvisitedIsland(g, v, cell, p[j]);
        }
        assert IsPath(k, p);
      }
    }
  }

  /** A fill region described by a component has that component's size. */
  lemma RegionIsComponent(k: Setup, g: GridValue<bool>, cell: IVec2)
    requires SameShape(k.src, g)
    requires forall c :: Reach(k, c) <==> Linked(g, true, cell, c)
    ensures Region(k) == Component(g, true, cell)
  {
    CellsEnumerate(k.src);
    CellsEnumerate(g);
  }

  /** After the first fill the visited mask is the old one plus the island. */
  lemma VisitedIsComponent(g: GridValue<bool>, v0: GridValue<bool>, v1: GridValue<bool>, k: Setup)
    requires forall c :: Reach(k, c) <==> Linked(g, true, k.pos, c)
    requires forall c :: Get(v1, c) == if Reach(k, c) then Some(true) else Get(v0, c)
    ensures forall c :: Get(v1, c) == if Linked(g, true, k.pos, c) then Some(true) else Get(v0, c)
  {
  }

  /** The second fill, from the visited mask back into the grid, clears exactly the island. */
  lemma SecondFill(g: GridValue<bool>, v: GridValue<bool>, r: GridValue<bool>, v1: GridValue<bool>, minArea: real,
                   cell: IVec2)
    requires SmallInv(g, v, r, minArea, 0)
    requires Get(v, cell) == Some(false)
    requires forall c :: Get(v1, c) == if Linked(g, true, cell, c) then Some(true) else Get(v, c)
    ensures forall c :: Reach(Setup(v1, true, r, false, cell), c) <==> Linked(g, true, cell, c)
  {
    var k := Setup(v1, true, r, false, cell);
    forall c ensures Reach(k, c) <==> Linked(g, true, cell, c) {
      if Reach(k, c) {
        var p :| IsPath(k, p) && p[|p| - 1] == c;
        forall j | 0 <= j < |p| ensures Get(g, p[j]) == Some(true) {
          if Linked(g, true, cell, p[j]) {
            LinkedEnds(g, true, cell, p[j]);
          }
        }
        assert WalkBetween(g, true, p, cell, c);
      }
      if Linked(g, true, cell, c) {
        var p :| WalkBetween(g, true, p, cell, c);
        forall j | 0 <= j < |p| ensures Inside0(k, p[j]) {
          WalkPrefix(g, true, p, j);
          UnvisitedIsland(g, v, cell, p[j]);
        }
        assert IsPath(k, p);
      }
    }
  }

  /** One visit keeps the scan invariant and moves it one cell on. */
  lemma VisitPreserves(g: GridValue<bool>, v: GridValue<bool>, r: GridValue<bool>, v1: GridValue<bool>,
                       r1: GridValue<bool>, minArea: real, cell: IVec2, i: int)
    requires SmallInv(g, v, r, minArea, i) && Contains(g, cell) && Index(g, cell) == i
    requires Get(v, cell) == Some(false) && Get(r, cell) == Some(true)
    requires SameShape(g, v1) && SameShape(g, r1)
    requires forall c :: Get(v1, c) == if Linked(g, true, cell, c) then Some(true) else Get(v, c)
    requires Small(g, minArea, cell) ==>
      forall c :: Get(r1, c) == if Linked(g, true, cell, c) then Some(false) else Get(r, c)
    requires !Small(g, minArea, cell) ==> r1 == r
    ensures SmallInv(g, v1, r1, minArea, i + 1)
  {
    forall c | Get(v1, c) == Some(true) ensures Get(g, c) == Some(true) {
      if Linked(g, true, cell, c) {
        LinkedEnds(g, true, cell, c);
      }
    }
    forall c, d | Get(v1, c) == Some(true) && Linked(g, true, c, d) ensures Get(v1, d) == Some(true) {
      if Linked(g, true, cell, c) {
        LinkedTrans(g, true, cell, c, d);
      }
    }
    forall c | Contains(g, c)
      ensures Get(r1, c) == Some(At(g, c) && !(Get(v1, c) == Some(true) && Small(g, minArea, c)))
    {
      if Linked(g, true, cell, c) {
        SameComponent(g, true, cell, c);
        LinkedEnds(g, true, cell, c);
        UnvisitedIsland(g, v, cell, c);
      }
    }
    forall c | Contains(g, c) && Index(g, c) < i + 1 && Get(g, c) == Some(true) ensures Get(v1, c) == Some(true) {
      if Index(g, c) == i {
        IndexInjective(g, c, cell);
        LinkedRefl(g, true, cell);
      }
    }
  }

  // ---------------------------------------------------------------------
  // random_zoom

  function Bit(b: bool): nat { if b then 1 else 0 }

  /** 1 for an in-bounds land cell, 0 for sea or outside the grid. */
  function LandAt(g: GridValue<bool>, c: IVec2): nat {
    if Contains(g, c) then Bit(At(g, c)) else 0
  }

  /** 1 for an in-bounds cell, 0 outside the grid. */
  function CellAt1(g: GridValue<bool>, c: IVec2): nat {
    if Contains(g, c) then 1 else 0
  }

  /** c and its four side neighbours, in the order of `neighborhood_4` after c. */
  function Around(c: IVec2): seq<IVec2> {
    [c, Above(c), Right(c), Below(c), Left(c)]
  }

  function LandIn(g: GridValue<bool>, cs: seq<IVec2>): nat {
    if cs == [] then 0 else LandAt(g, cs[0]) + LandIn(g, cs[1..])
  }

  function CellsIn(g: GridValue<bool>, cs: seq<IVec2>): nat {
    if cs == [] then 0 else CellAt1(g, cs[0]) + CellsIn(g, cs[1..])
  }

  /** Land cells among c and its in-bounds side neighbours. */
  function LandAround(g: GridValue<bool>, c: IVec2): nat {
    LandIn(g, Around(c))
  }

  /** In-bounds cells among c and its side neighbours. */
  function CellsAround(g: GridValue<bool>, c: IVec2): nat {
    CellsIn(g, Around(c))
  }

  /** The two counts written out cell by cell. */
  lemma AroundSums(g: GridValue<bool>, c: IVec2)
    ensures LandAround(g, c) ==
      LandAt(g, c) + LandAt(g, Above(c)) + LandAt(g, Right(c)) + LandAt(g, Below(c)) + LandAt(g, Left(c))
    ensures CellsAround(g, c) ==
      CellAt1(g, c) + CellAt1(g, Above(c)) + CellAt1(g, Right(c)) + CellAt1(g, Below(c)) + CellAt1(g, Left(c))
  {
    var a0 := Around(c);
    var a1 := [Above(c), Right(c), Below(c), Left(c)];
    var a2 := [Right(c), Below(c), Left(c)];
    var a3 := [Below(c), Left(c)];
    var a4 := [Left(c)];
    assert a0[1..] == a1 && a1[1..] == a2 && a2[1..] == a3 && a3[1..] == a4 && a4[1..] == [];
    assert LandIn(g, a4) == LandAt(g, Left(c)) && CellsIn(g, a4) == CellAt1(g, Left(c));
    assert LandIn(g, a3) == LandAt(g, Below(c)) + LandIn(g, a4) && CellsIn(g, a3) == CellAt1(g, Below(c)) + CellsIn(g, a4);
    assert LandIn(g, a2) == LandAt(g, Right(c)) + LandIn(g, a3) && CellsIn(g, a2) == CellAt1(g, Right(c)) + CellsIn(g, a3);
    assert LandIn(g, a1) == LandAt(g, Above(c)) + LandIn(g, a2) && CellsIn(g, a1) == CellAt1(g, Above(c)) + CellsIn(g, a2);
  }

  /**
   * `gen_bool` is called with p = LandAround / CellsAround, which lies in
   * [0, 1] (the source never panics there): the count includes c itself.
   */
  lemma ZoomOddsInUnit(g: GridValue<bool>, c: IVec2)
    requires Contains(g, c)
    ensures LandAround(g, c) <= CellsAround(g, c) && CellsAround(g, c) > 0
    ensures 0.0 <= (LandAround(g, c) as real) / (CellsAround(g, c) as real) <= 1.0
  {
    AroundSums(g, c);
    FractionInUnit(LandAround(g, c), CellsAround(g, c));
  }

  /** The number of land cells among the given neighbours, front to back. */
  function NeighborSum(g: GridValue<bool>, ns: seq<(nat, IVec2)>): nat
  {
    if ns == [] then 0 else LandAt(g, ns[0].1) + NeighborSum(g, ns[1..])
  }

  function DirLand(g: GridValue<bool>, dirs: seq<IVec2>, c: IVec2, k: nat): nat
    decreases |dirs| - k
  {
    if k >= |dirs| then 0 else LandAt(g, c.Plus(dirs[k])) + DirLand(g, dirs, c, k + 1)
  }

  function DirCells(g: GridValue<bool>, dirs: seq<IVec2>, c: IVec2, k: nat): nat
    decreases |dirs| - k
  {
    if k >= |dirs| then 0 else CellAt1(g, c.Plus(dirs[k])) + DirCells(g, dirs, c, k + 1)
  }

  /** Summing over the neighbourhood is summing over the in-bounds directions. */
  lemma {:induction false} NeighborhoodSums(g: GridValue<bool>, dirs: seq<IVec2>, c: IVec2, k: nat)
    ensures NeighborSum(g, NeighborhoodFrom(g, dirs, c, k)) == DirLand(g, dirs, c, k)
    ensures |NeighborhoodFrom(g, dirs, c, k)| == DirCells(g, dirs, c, k)
    decreases |dirs| - k
  {
    if k < |dirs| {
      NeighborhoodSums(g, dirs, c, k + 1);
      var p := c.Plus(dirs[k]);
      var rest := NeighborhoodFrom(g, dirs, c, k + 1);
      if Contains(g, p) {
        assert ([(k, p)] + rest)[1..] == rest;
      } else {
        assert [] + rest == rest;
      }
    }
  }

  /** The source's loop over `neighborhood_4` adds up to the reference counts. */
  lemma Neighbors4Sums(g: GridValue<bool>, c: IVec2)
    requires Contains(g, c)
    ensures Bit(At(g, c)) + NeighborSum(g, Neighbors4(g, c)) == LandAround(g, c)
    ensures 1 + |Neighbors4(g, c)| == CellsAround(g, c)
  {
    NeighborhoodSums(g, Neighborhood4, c, 0);
    AroundSums(g, c);
    Dirs4(c);
    DirLand4(g, c);
    DirCells4(g, c);
  }

  lemma Dirs4(c: IVec2)
    ensures c.Plus(Neighborhood4[0]) == Above(c) && c.Plus(Neighborhood4[1]) == Right(c)
    ensures c.Plus(Neighborhood4[2]) == Below(c) && c.Plus(Neighborhood4[3]) == Left(c)
  {
  }

  lemma DirLand4(g: GridValue<bool>, c: IVec2)
    ensures DirLand(g, Neighborhood4, c, 0) ==
      LandAt(g, Above(c)) + LandAt(g, Right(c)) + LandAt(g, Below(c)) + LandAt(g, Left(c))
  {
    Dirs4(c);
    var d := Neighborhood4;
    assert DirLand(g, d, c, 3) == LandAt(g, Left(c)) + DirLand(g, d, c, 4);
    assert DirLand(g, d, c, 2) == LandAt(g, Below(c)) + DirLand(g, d, c, 3);
    assert DirLand(g, d, c, 1) == LandAt(g, Right(c)) + DirLand(g, d, c, 2);
    assert DirLand(g, d, c, 0) == LandAt(g, Above(c)) + DirLand(g, d, c, 1);
  }

  lemma DirCells4(g: GridValue<bool>, c: IVec2)
    ensures DirCells(g, Neighborhood4, c, 0) ==
      CellAt1(g, Above(c)) + CellAt1(g, Right(c)) + CellAt1(g, Below(c)) + CellAt1(g, Left(c))
  {
    Dirs4(c);
    var d := Neighborhood4;
    assert DirCells(g, d, c, 3) == CellAt1(g, Left(c)) + DirCells(g, d, c, 4);
    assert DirCells(g, d, c, 2) == CellAt1(g, Below(c)) + DirCells(g, d, c, 3);
    assert DirCells(g, d, c, 1) == CellAt1(g, Right(c)) + DirCells(g, d, c, 2);
    assert DirCells(g, d, c, 0) == CellAt1(g, Above(c)) + DirCells(g, d, c, 1);
  }

  /** The offsets of the four writes of a 2x2 block, in the source's order. */
  function Offset(q: nat): IVec2 {
    if q == 0 then IVec2(0, 0) else if q == 1 then IVec2(0, 1) else if q == 2 then IVec2(1, 0) else IVec2(1, 1)
  }

  /** Cell q of the 2x2 block that cell c of the source becomes. */
  function Block(c: IVec2, q: nat): IVec2 {
    var o := Offset(q);
    IVec2(2 * c.x + o.x, 2 * c.y + o.y)
  }

  /**
   * The upsampled mask after the first `done` cells of g (row-major): cell q
   * of the block of c holds the outcome of draw 4 * index(c) + q, made with
   * the neighbourhood fraction of c, or false when c has not been reached yet.
   */
  function ZoomCell(g: GridValue<bool>, coin: (nat, nat, nat) -> bool, d0: nat, done: int, c: IVec2, q: nat): bool
    requires Contains(g, c)
  {
    IndexRange(g, c);
    if Index(g, c) < done then coin(d0 + 4 * Index(g, c) + q, LandAround(g, c), CellsAround(g, c)) else false
  }

  ghost predicate ZoomedUpTo(g: GridValue<bool>, r: GridValue<bool>, coin: (nat, nat, nat) -> bool, d0: nat, done: int)
    requires g.origin == Zero
  {
    r.origin == Zero && r.size == UVec2(2 * g.size.x, 2 * g.size.y) &&
    forall c, q {:trigger Block(c, q)} | Contains(g, c) && q < 4 ::
      Get(r, Block(c, q)) == Some(ZoomCell(g, coin, d0, done, c, q))
  }

  /** The blocks tile the doubled grid: every cell of it is cell q of the block of some source cell. */
  lemma BlocksCover(g: GridValue<bool>, r: GridValue<bool>, C: IVec2)
    requires g.origin == Zero && r.origin == Zero && r.size == UVec2(2 * g.size.x, 2 * g.size.y)
    requires Contains(r, C)
    ensures exists c, q {:trigger Block(c, q)} :: Contains(g, c) && q < 4 && C == Block(c, q)
  {
    var c := IVec2(C.x / 2, C.y / 2);
    var q := 2 * (C.x % 2) + C.y % 2;
    assert C == Block(c, q);
  }

  /** `random_zoom`: doubles both dimensions, drawing each 2x2 block from the neighbourhood fraction. */
  method RandomZoom(grid: Grid<bool>, coin: (nat, nat, nat) -> bool, draws0: nat) returns (draws: nat)
    requires grid.Valid() && grid.origin == Zero
    requires 2 * grid.size.x < I32Max && 2 * grid.size.y < I32Max
    modifies grid
    ensures grid.Valid() && fresh(grid.data)
    ensures ZoomedUpTo(old(grid.Value()), grid.Value(), coin, draws0, old(grid.size.Area()))
    ensures draws == draws0 + 4 * old(grid.size.Area())
  {
    var res := new Grid.New(UVec2(2 * grid.size.x, 2 * grid.size.y), false);
    ghost var g := grid.Value();
    ZoomStart(g, res.Value(), coin, draws0);
    var i := 0;
    draws := draws0;
    while i < grid.data.Length
      invariant 0 <= i <= g.size.Area() && grid.Valid() && grid.Value() == g
      invariant res.Valid() && res.data != grid.data && fresh(res.data)
      invariant ZoomedUpTo(g, res.Value(), coin, draws0, i)
      invariant draws == draws0 + 4 * i
    {
      var cell := CellAt(Zero, grid.size, i);
      CellAtInBounds(g, i);
      var land, cells := NeighborCounts(grid, cell);
      ZoomBlock(g, res, cell, i, coin, draws0, draws, land, cells);
      draws := draws + 4;
      i := i + 1;
    }
    grid.origin, grid.size, grid.data := res.origin, res.size, res.data;
  }

  /**
   * The inner loop of `random_zoom`: land cells and cells among c and its
   * in-bounds 4-neighbours, added up in neighbourhood order.
   */
  method NeighborCounts(grid: Grid<bool>, cell: IVec2) returns (sum: nat, count: nat)
    requires grid.Valid() && Contains(grid.Value(), cell)
    ensures sum == LandAround(grid.Value(), cell) && count == CellsAround(grid.Value(), cell)
  {
    var g := grid.Value();
    var ns := Neighbors4(g, cell);
    NeighborhoodSpec(g, Neighborhood4, cell);
    var s, n := SumNeighbors(g, ns);
    sum := Bit(At(g, cell)) + s;
    count := 1 + n;
    Neighbors4Sums(g, cell);
  }

  method SumNeighbors(g: GridValue<bool>, ns: seq<(nat, IVec2)>) returns (sum: nat, count: nat)
    requires forall e | e in ns :: Contains(g, e.1)
    ensures sum == NeighborSum(g, ns) && count == |ns|
  {
    sum, count := 0, 0;
    var j := 0;
    while j < |ns|
      invariant 0 <= j <= |ns|
      invariant sum + NeighborSum(g, ns[j..]) == NeighborSum(g, ns) && count == j
    {
      assert ns[j..][1..] == ns[j + 1..];
      assert ns[j] in ns;
      sum := sum + Bit(At(g, ns[j].1));
      count := count + 1;
      j := j + 1;
    }
  }

  lemma ZoomStart(g: GridValue<bool>, r: GridValue<bool>, coin: (nat, nat, nat) -> bool, d0: nat)
    requires g.origin == Zero && r.origin == Zero && r.size == UVec2(2 * g.size.x, 2 * g.size.y)
    requires forall i | 0 <= i < |r.cells| :: r.cells[i] == false
    ensures ZoomedUpTo(g, r, coin, d0, 0)
  {
    forall c, q | Contains(g, c) && q < 4
      ensures Get(r, Block(c, q)) == Some(ZoomCell(g, coin, d0, 0, c, q))
    {
      IndexInBounds(g, c);
      BlockInBounds(g, r, c, q);
      IndexInBounds(r, Block(c, q));
    }
  }

  lemma BlockInBounds(g: GridValue<bool>, r: GridValue<bool>, c: IVec2, q: nat)
    requires g.origin == Zero && r.origin == Zero && r.size == UVec2(2 * g.size.x, 2 * g.size.y)
    requires Contains(g, c) && q < 4
    ensures Contains(r, Block(c, q))
  {
  }

  /** The four writes of one block, in the source's order: cell q gets draw d + q. */
  function WriteBlock(r: GridValue<bool>, cell: IVec2, coin: (nat, nat, nat) -> bool, d: nat, a: nat, b: nat): GridValue<bool> {
    With(With(With(With(r, Block(cell, 0), coin(d, a, b)),
                        Block(cell, 1), coin(d + 1, a, b)),
                   Block(cell, 2), coin(d + 2, a, b)),
              Block(cell, 3), coin(d + 3, a, b))
  }

  lemma WriteBlockOwn(r: GridValue<bool>, cell: IVec2, coin: (nat, nat, nat) -> bool, d: nat, a: nat, b: nat, q: nat)
    requires q < 4 && Contains(r, Block(cell, q))
    ensures Get(WriteBlock(r, cell, coin, d, a, b), Block(cell, q)) == Some(coin(d + q, a, b))
  {
    var r1 := With(r, Block(cell, 0), coin(d, a, b));
    var r2 := With(r1, Block(cell, 1), coin(d + 1, a, b));
    var r3 := With(r2, Block(cell, 2), coin(d + 2, a, b));
    var C := Block(cell, q);
    GetWith(r, Block(cell, 0), coin(d, a, b), C);
    GetWith(r1, Block(cell, 1), coin(d + 1, a, b), C);
    GetWith(r2, Block(cell, 2), coin(d + 2, a, b), C);
    GetWith(r3, Block(cell, 3), coin(d + 3, a, b), C);
  }

  lemma WriteBlockOther(r: GridValue<bool>, cell: IVec2, coin: (nat, nat, nat) -> bool, d: nat, a: nat, b: nat,
                        c: IVec2, q: nat)
    requires q < 4 && c != cell
    ensures Get(WriteBlock(r, cell, coin, d, a, b), Block(c, q)) == Get(r, Block(c, q))
  {
    var r1 := With(r, Block(cell, 0), coin(d, a, b));
    var r2 := With(r1, Block(cell, 1), coin(d + 1, a, b));
    var r3 := With(r2, Block(cell, 2), coin(d + 2, a, b));
    var C := Block(c, q);
    assert C != Block(cell, 0) && C != Block(cell, 1) && C != Block(cell, 2) && C != Block(cell, 3);
    GetWith(r, Block(cell, 0), coin(d, a, b), C);
    GetWith(r1, Block(cell, 1), coin(d + 1, a, b), C);
    GetWith(r2, Block(cell, 2), coin(d + 2, a, b), C);
    GetWith(r3, Block(cell, 3), coin(d + 3, a, b), C);
  }

  /** One iteration of `random_zoom`'s outer loop, after the counts. */
  method ZoomBlock(ghost g: GridValue<bool>, res: Grid<bool>, cell: IVec2, i: nat, coin: (nat, nat, nat) -> bool,
                   d0: nat, draws: nat, land: nat, cells: nat)
    requires g.origin == Zero && Contains(g, cell) && Index(g, cell) == i
    requires res.Valid() && ZoomedUpTo(g, res.Value(), coin, d0, i)
    requires draws == d0 + 4 * i && land == LandAround(g, cell) && cells == CellsAround(g, cell)
    modifies res.data
    ensures res.Valid() && ZoomedUpTo(g, res.Value(), coin, d0, i + 1)
  {
    ghost var r0 := res.Value();
    BlockInBounds(g, r0, cell, 0);
    BlockInBounds(g, r0, cell, 1);
    BlockInBounds(g, r0, cell, 2);
    BlockInBounds(g, r0, cell, 3);
    res.Put(Block(cell, 0), coin(draws, land, cells));
    res.Put(Block(cell, 1), coin(draws + 1, land, cells));
    res.Put(Block(cell, 2), coin(draws + 2, land, cells));
    res.Put(Block(cell, 3), coin(draws + 3, land, cells));
    assert res.Value() == WriteBlock(r0, cell, coin, draws, land, cells);
    ZoomBlockDone(g, r0, res.Value(), cell, i, coin, d0, draws, land, cells);
  }

  lemma ZoomBlockDone(g: GridValue<bool>, r0: GridValue<bool>, r: GridValue<bool>, cell: IVec2, i: nat,
                      coin: (nat, nat, nat) -> bool, d0: nat, d: nat, a: nat, b: nat)
    requires g.origin == Zero && Contains(g, cell) && Index(g, cell) == i
    requires ZoomedUpTo(g, r0, coin, d0, i)
    requires d == d0 + 4 * i && a == LandAround(g, cell) && b == CellsAround(g, cell)
    requires r == WriteBlock(r0, cell, coin, d, a, b)
    ensures ZoomedUpTo(g, r, coin, d0, i + 1)
  {
    forall c, q | Contains(g, c) && q < 4
      ensures Get(r, Block(c, q)) == Some(ZoomCell(g, coin, d0, i + 1, c, q))
    {
      if c == cell {
        BlockInBounds(g, r0, c, q);
        WriteBlockOwn(r0, cell, coin, d0 + 4 * i, a, b, q);
      } else {
        ZoomOther(g, r0, r, cell, i, coin, d0, a, b, c, q);
      }
    }
  }

  /** The writes of one block leave the earlier blocks as they were. */
  lemma ZoomOther(g: GridValue<bool>, r0: GridValue<bool>, r: GridValue<bool>, cell: IVec2, i: nat,
                  coin: (nat, nat, nat) -> bool, d0: nat, a: nat, b: nat, c: IVec2, q: nat)
    requires g.origin == Zero && Contains(g, cell) && Index(g, cell) == i
    requires ZoomedUpTo(g, r0, coin, d0, i)
    requires r == WriteBlock(r0, cell, coin, d0 + 4 * i, a, b)
    requires Contains(g, c) && q < 4 && c != cell
    ensures Get(r, Block(c, q)) == Some(ZoomCell(g, coin, d0, i + 1, c, q))
  {
    IndexRange(g, c);
    assert Index(g, c) != i by {
      if Index(g, c) == i {
        IndexInjective(g, c, cell);
      }
    }
    WriteBlockOther(r0, cell, coin, d0 + 4 * i, a, b, c, q);
  }

  /**
   * Where c and every in-bounds 4-neighbour are land, p = 1 and the whole 2x2
   * block is land; where they are all sea, p = 0 and the block is sea.
   */
  lemma ZoomKeepsUniformBlocks(g: GridValue<bool>, r: GridValue<bool>, coin: (nat, nat, nat) -> bool, d0: nat,
                               c: IVec2, v: bool, q: nat)
    requires g.origin == Zero && ZoomedUpTo(g, r, coin, d0, g.size.Area())
    requires forall n, k: nat | k > 0 :: coin(n, k, k) && !coin(n, 0, k)
    requires Get(g, c) == Some(v)
    requires forall d | Contains(g, d) && Adjacent(c, d) :: Get(g, d) == Some(v)
    requires q < 4
    ensures Get(r, Block(c, q)) == Some(v)
  {
    assert Adjacent(c, Above(c)) && Adjacent(c, Right(c)) && Adjacent(c, Below(c)) && Adjacent(c, Left(c));
    AroundSums(g, c);
    var n := CellsAround(g, c);
    assert LandAround(g, c) == if v then n else 0;
    IndexInBounds(g, c);
    assert ZoomCell(g, coin, d0, g.size.Area(), c, q) == v;
  }

  lemma FractionInUnit(a: nat, b: nat)
    requires a <= b && b > 0
    ensures 0.0 <= (a as real) / (b as real) <= 1.0
  {
  }

  // ---------------------------------------------------------------------
  // generate_island_map

  /**
   * The retry loop of `generate_island_map`, up to the mask that is handed to
   * `generate_sdf`.  Attempt n starts from `field(n, c)`, the value that noise
   * and Voronoi reshaping leave at cell c; each attempt thresholds it, fills
   * holes, zooms three times, fills holes again, drops small islands and
   * accepts the mask when its land fraction is in range.  `fuel` bounds the
   * number of attempts; None means it ran out.
   */
  method GenerateIslandMap(size: UVec2, cutoff: real, minIslandArea: real, minTotalArea: real, maxTotalArea: real,
                           field: (nat, IVec2) -> real, coin: (nat, nat, nat) -> bool, fuel: nat)
    returns (mask: Option<GridValue<bool>>, draws: nat)
    requires size.x < I32Max && size.y < I32Max
    ensures mask.Some? ==> mask.value.origin == Zero
    ensures mask.Some? ==> mask.value.size == UVec2(size.x / 8 * 8, size.y / 8 * 8)
    ensures mask.Some? ==> CheckTotalArea(mask.value, minTotalArea, maxTotalArea)
    ensures mask.Some? ==> forall c | Get(mask.value, c) == Some(true) :: !Small(mask.value, minIslandArea, c)
  {
    var attempt := 0;
    draws := 0;
    while attempt < fuel
      decreases fuel - attempt
    {
      var island;
      island, draws := IslandAttempt(size, cutoff, minIslandArea, field, attempt, coin, draws);
      if CheckTotalArea(island, minTotalArea, maxTotalArea) {
        return Some(island), draws;
      }
      attempt := attempt + 1;
    }
    return None, draws;
  }

  /** One pass of the retry loop's body, before the area check. */
  method IslandAttempt(size: UVec2, cutoff: real, minIslandArea: real, field: (nat, IVec2) -> real, n: nat,
                       coin: (nat, nat, nat) -> bool, draws0: nat)
    returns (island: GridValue<bool>, draws: nat)
    requires size.x < I32Max && size.y < I32Max
    ensures island.origin == Zero && island.size == UVec2(size.x / 8 * 8, size.y / 8 * 8)
    ensures forall c | Get(island, c) == Some(true) :: !Small(island, minIslandArea, c)
    ensures draws == draws0 + 84 * UVec2(size.x / 8, size.y / 8).Area()
  {
    var grid := new Grid.New(UVec2(size.x / 8, size.y / 8), 0.0);
    grid.MapInPlace((c: IVec2, v: real) => field(n, c));
    var mask := new Grid.Of(GridOps.ToBool(grid.Value(), cutoff));
    RemoveHoles(mask);
    ghost var s0 := mask.size;
    draws := RandomZoom(mask, coin, draws0);
    DoubledArea(s0);
    draws := RandomZoom(mask, coin, draws);
    DoubledArea(UVec2(2 * s0.x, 2 * s0.y));
    draws := RandomZoom(mask, coin, draws);
    RemoveHoles(mask);
    ghost var before := mask.Value();
    RemoveSmallIslands(mask, minIslandArea);
    island := mask.Value();
    LargeIslandsRemain(before, island, minIslandArea);
  }

  lemma DoubledArea(s: UVec2)
    ensures UVec2(2 * s.x, 2 * s.y).Area() == 4 * s.Area()
  {
  }
}
