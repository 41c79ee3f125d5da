/**
 * The dense row-major 2D grid with an integer origin offset (`Grid<T>` of
 * crates/rg_grid/src/lib.rs; crates/rg_core/src/grid.rs is an older copy with
 * the same geometry).
 *
 * Pure operations work on `GridValue<T>`, an (origin, size, cells) triple whose
 * cell count is width * height.  The mutable `Grid<T>` class holds the same
 * triple with the cells in an array and is used where the source changes a
 * grid in place.
 */
module Grids {
  import opened Wrappers
  import opened Arith

  /** A signed cell coordinate or direction (`IVec2`). */
  datatype IVec2 = IVec2(x: int, y: int)
  {
    function Plus(o: IVec2): IVec2 { IVec2(x + o.x, y + o.y) }
    function Minus(o: IVec2): IVec2 { IVec2(x - o.x, y - o.y) }
    function Scale(k: int): IVec2 { IVec2(k * x, k * y) }
    function Yx(): IVec2 { IVec2(y, x) }
  }

  /** An unsigned grid size (`UVec2`). */
  datatype UVec2 = UVec2(x: nat, y: nat)
  {
    function Yx(): UVec2 { UVec2(y, x) }
    function Area(): nat { x * y }
  }

  const Zero := IVec2(0, 0)
  const I32Max: nat := 0x7fff_ffff

  /** Up, right, down, left. */
  const Neighborhood4: seq<IVec2> := [IVec2(0, -1), IVec2(1, 0), IVec2(0, 1), IVec2(-1, 0)]

  /** The eight surrounding cells, clockwise from up. */
  const Neighborhood8: seq<IVec2> :=
    [IVec2(0, -1), IVec2(1, -1), IVec2(1, 0), IVec2(1, 1),
     IVec2(0, 1), IVec2(-1, 1), IVec2(-1, 0), IVec2(-1, -1)]

  datatype RawGrid<T> = RawGrid(origin: IVec2, size: UVec2, cells: seq<T>)

  /** A grid value: exactly width * height cells, row-major. */
  type GridValue<T> = g: RawGrid<T> | |g.cells| == g.size.Area()
    witness RawGrid(IVec2(0, 0), UVec2(0, 0), [])

  // ---------------------------------------------------------------------
  // Arithmetic of the row-major layout

  lemma AreaPositive(size: UVec2, i: int)
    requires 0 <= i < size.Area()
    ensures size.x > 0 && size.y > 0
  {
    ProductPositive(size.x, size.y, i);
  }

  // ---------------------------------------------------------------------
  // Geometry: bounds test, cell -> index, index -> cell

  /** `contains_cell`: origin <= c < origin + size, componentwise. */
  predicate Contains<T>(g: GridValue<T>, c: IVec2) {
    0 <= c.x - g.origin.x < g.size.x && 0 <= c.y - g.origin.y < g.size.y
  }

  /** `index`: row-major offset of `c` relative to the origin. */
  function Index<T>(g: GridValue<T>, c: IVec2): int {
    (c.y - g.origin.y) * g.size.x + (c.x - g.origin.x)
  }

  /** The cell at row-major position `i` of a grid with this origin and size. */
  function CellAt(origin: IVec2, size: UVec2, i: nat): IVec2
    requires i < size.Area()
  {
    AreaPositive(size, i);
    origin.Plus(IVec2(i % size.x, i / size.x))
  }

  /** An in-bounds cell has an index into the cells. */
  lemma IndexRange<T>(g: GridValue<T>, c: IVec2)
    requires Contains(g, c)
    ensures 0 <= Index(g, c) < |g.cells|
  {
    RowMajorBound(c.x - g.origin.x, c.y - g.origin.y, g.size.x, g.size.y);
  }

  lemma IndexInBounds<T>(g: GridValue<T>, c: IVec2)
    requires Contains(g, c)
    ensures 0 <= Index(g, c) < |g.cells|
    ensures CellAt(g.origin, g.size, Index(g, c)) == c
  {
    var x, y := c.x - g.origin.x, c.y - g.origin.y;
    RowMajorBound(x, y, g.size.x, g.size.y);
    DivModUnique(Index(g, c), g.size.x, y, x);
  }

  lemma CellAtInBounds<T>(g: GridValue<T>, i: nat)
    requires i < |g.cells|
    ensures Contains(g, CellAt(g.origin, g.size, i))
    ensures Index(g, CellAt(g.origin, g.size, i)) == i
  {
    AreaPositive(g.size, i);
    RowMajorCell(g.size.x, g.size.y, i);
  }

  /** Distinct in-bounds cells have distinct indices. */
  lemma IndexInjective<T>(g: GridValue<T>, c: IVec2, d: IVec2)
    requires Contains(g, c) && Contains(g, d) && Index(g, c) == Index(g, d)
    ensures c == d
  {
    IndexInBounds(g, c);
    IndexInBounds(g, d);
  }

  // ---------------------------------------------------------------------
  // Reading

  /** `get`: the element at `c`, or None outside the grid. */
  function Get<T>(g: GridValue<T>, c: IVec2): (r: Option<T>)
    ensures r.Some? <==> Contains(g, c)
  {
    if Contains(g, c) then
      IndexRange(g, c);
      Some(g.cells[Index(g, c)])
    else
      None
  }

  /** `grid[c]` (the `Index` impl): the element at `c`; panics outside the grid. */
  function At<T>(g: GridValue<T>, c: IVec2): (r: T)
    requires Contains(g, c)
    ensures Get(g, c) == Some(r)
  {
    IndexRange(g, c);
    g.cells[Index(g, c)]
  }

  function Min(a: int, b: int): int { if a <= b then a else b }
  function Max(a: int, b: int): int { if a >= b then a else b }

  /** `c.max(origin).min(origin + size - 1)`. */
  function Clamp<T>(g: GridValue<T>, c: IVec2): IVec2 {
    IVec2(Min(Max(c.x, g.origin.x), g.origin.x + g.size.x - 1),
          Min(Max(c.y, g.origin.y), g.origin.y + g.size.y - 1))
  }

  /**
   * `clamped_get`: on a non-empty grid the clamped cell is always in bounds, and
   * a cell that is already in bounds reads itself.  (On an empty grid the
   * source indexes out of bounds and panics.)
   */
  function ClampedGet<T>(g: GridValue<T>, c: IVec2): (r: T)
    requires g.size.x > 0 && g.size.y > 0
    ensures Contains(g, Clamp(g, c)) && Get(g, Clamp(g, c)) == Some(r)
    ensures Contains(g, c) ==> Get(g, c) == Some(r)
  {
    At(g, Clamp(g, c))
  }

  // ---------------------------------------------------------------------
  // Writing

  /** The grid with `c` replaced by `v`; unchanged when `c` is outside. */
  function With<T>(g: GridValue<T>, c: IVec2, v: T): (r: GridValue<T>)
    ensures r.origin == g.origin && r.size == g.size
  {
    if Contains(g, c) then
      IndexRange(g, c);
      RawGrid(g.origin, g.size, g.cells[Index(g, c) := v])
    else
      g
  }

  /** After a write, `c` reads the new value and every other cell reads what it did before. */
  lemma GetWith<T>(g: GridValue<T>, c: IVec2, v: T, d: IVec2)
    ensures Get(With(g, c, v), d) == if d == c && Contains(g, c) then Some(v) else Get(g, d)
  {
    if Contains(g, c) && Contains(g, d) {
      IndexInBounds(g, c);
      IndexInBounds(g, d);
      if d != c {
        var i, j := Index(g, c), Index(g, d);
        assert i != j by {
          if i == j {
            IndexInjective(g, c, d);
          }
        }
        assert Get(With(g, c, v), d) == Some(g.cells[i := v][j]);
      }
    }
  }

  // ---------------------------------------------------------------------
  // Construction

  /** `from_fn_with_origin`: cell i holds f(origin + (i % w, i / w)). */
  function FromFnWithOrigin<T>(size: UVec2, origin: IVec2, f: IVec2 --> T): (r: GridValue<T>)
    requires forall i: nat | i < size.Area() :: f.requires(CellAt(origin, size, i))
    ensures r.origin == origin && r.size == size
  {
    RawGrid(origin, size, seq(size.Area(), (i: int) requires 0 <= i < size.Area() => f(CellAt(origin, size, i))))
  }

  /** Every cell of a `from_fn_with_origin` grid holds f of its own coordinate. */
  lemma FromFnGet<T>(size: UVec2, origin: IVec2, f: IVec2 --> T, c: IVec2)
    requires forall i: nat | i < size.Area() :: f.requires(CellAt(origin, size, i))
    ensures var r := FromFnWithOrigin(size, origin, f);
      Contains(r, c) ==> f.requires(c) && Get(r, c) == Some(f(c))
  {
    var r := FromFnWithOrigin(size, origin, f);
    if Contains(r, c) {
      IndexInBounds(r, c);
    }
  }

  /**
   * `par_from_fn_with_origin` as written: cell i is computed from
   * (i % w, i / w) -- the origin is only attached to the result afterwards.
   */
  function ParFromFnWithOrigin<T>(size: UVec2, origin: IVec2, f: IVec2 --> T): (r: GridValue<T>)
    requires forall i: nat | i < size.Area() :: f.requires(CellAt(Zero, size, i))
    ensures r.origin == origin && r.size == size
  {
    RawGrid(origin, size, seq(size.Area(), (i: int) requires 0 <= i < size.Area() => f(CellAt(Zero, size, i))))
  }

  /**
   * The parallel constructor hands f each cell minus the origin: it equals the
   * sequential constructor applied to f shifted by the origin, and the two agree
   * when the origin is zero.
   */
  lemma ParFromFnIsShifted<T>(size: UVec2, origin: IVec2, f: IVec2 -> T)
    ensures ParFromFnWithOrigin(size, origin, f) == FromFnWithOrigin(size, origin, (c: IVec2) => f(c.Minus(origin)))
    ensures origin == Zero ==> ParFromFnWithOrigin(size, origin, f) == FromFnWithOrigin(size, origin, f)
  {
    var a := ParFromFnWithOrigin(size, origin, f);
    var b := FromFnWithOrigin(size, origin, (c: IVec2) => f(c.Minus(origin)));
    forall i | 0 <= i < size.Area() ensures a.cells[i] == b.cells[i] {
      assert CellAt(origin, size, i).Minus(origin) == CellAt(Zero, size, i);
    }
    assert a.cells == b.cells;
    if origin == Zero {
      assert a.cells == FromFnWithOrigin(size, origin, f).cells;
    }
  }

  // ---------------------------------------------------------------------
  // Enumeration

  /** `cells`: every cell in row-major order (y outer, x inner). */
  function Cells<T>(g: GridValue<T>): (r: seq<IVec2>)
    ensures |r| == |g.cells|
  {
    seq(|g.cells|, (i: int) requires 0 <= i < |g.cells| => CellAt(g.origin, g.size, i))
  }

  /**
   * `cells` lists each in-bounds cell exactly once: position i holds the cell
   * whose index is i, in row-major order, and nothing outside the grid.
   */
  lemma CellsEnumerate<T>(g: GridValue<T>)
    ensures forall i | 0 <= i < |Cells(g)| :: Contains(g, Cells(g)[i]) && Index(g, Cells(g)[i]) == i
    ensures forall c :: c in Cells(g) <==> Contains(g, c)
    ensures forall x, y | 0 <= x < g.size.x && 0 <= y < g.size.y ::
      y * g.size.x + x < |Cells(g)| && Cells(g)[y * g.size.x + x] == g.origin.Plus(IVec2(x, y))
  {
    forall i | 0 <= i < |Cells(g)|
      ensures Contains(g, Cells(g)[i]) && Index(g, Cells(g)[i]) == i
    {
      CellAtInBounds(g, i);
    }
    forall c | Contains(g, c) ensures c in Cells(g) {
      IndexInBounds(g, c);
      assert Cells(g)[Index(g, c)] == c;
    }
    forall x, y | 0 <= x < g.size.x && 0 <= y < g.size.y
      ensures y * g.size.x + x < |Cells(g)| && Cells(g)[y * g.size.x + x] == g.origin.Plus(IVec2(x, y))
    {
      IndexInBounds(g, g.origin.Plus(IVec2(x, y)));
    }
  }

  /** `entries`: each cell zipped with its value. */
  function Entries<T>(g: GridValue<T>): (r: seq<(IVec2, T)>)
    ensures |r| == |g.cells|
  {
    seq(|g.cells|, (i: int) requires 0 <= i < |g.cells| => (Cells(g)[i], g.cells[i]))
  }

  /** Every entry pairs a cell with the value `get` returns for it. */
  lemma EntriesAgreeWithGet<T>(g: GridValue<T>)
    ensures forall i | 0 <= i < |Entries(g)| :: Get(g, Entries(g)[i].0) == Some(Entries(g)[i].1)
  {
    forall i | 0 <= i < |Entries(g)| ensures Get(g, Entries(g)[i].0) == Some(Entries(g)[i].1) {
      var c := CellAt(g.origin, g.size, i);
      assert Cells(g)[i] == c;
      assert Entries(g)[i] == (c, g.cells[i]);
      CellAtInBounds(g, i);
    }
  }

  /** `map`: f applied to every entry, keeping size and origin. */
  function Map<T, U>(g: GridValue<T>, f: (IVec2, T) -> U): (r: GridValue<U>)
    ensures r.origin == g.origin && r.size == g.size
  {
    var cells := seq(|g.cells|, (i: int) requires 0 <= i < |g.cells| => f(CellAt(g.origin, g.size, i), g.cells[i]));
    RawGrid(g.origin, g.size, cells)
  }

  /** Each cell of a mapped grid is f of that cell and its old value. */
  lemma MapGet<T, U>(g: GridValue<T>, f: (IVec2, T) -> U, c: IVec2)
    ensures Get(Map(g, f), c) == if Contains(g, c) then Some(f(c, At(g, c))) else None
  {
    if Contains(g, c) {
      IndexInBounds(g, c);
    }
  }

  /** Mapping with a function of the value alone maps the cells pointwise. */
  lemma MapValues<T, U>(g: GridValue<T>, f: (IVec2, T) -> U, h: T -> U)
    requires forall c, v :: f(c, v) == h(v)
    ensures forall i | 0 <= i < |g.cells| :: Map(g, f).cells[i] == h(g.cells[i])
  {
    forall i | 0 <= i < |g.cells| ensures Map(g, f).cells[i] == h(g.cells[i]) {
      assert Map(g, f).cells[i] == f(CellAt(g.origin, g.size, i), g.cells[i]);
    }
  }

  // ---------------------------------------------------------------------
  // Neighbourhoods

  /** The in-bounds cells center + dirs[k..], each tagged with its position in `dirs`. */
  function NeighborhoodFrom<T>(g: GridValue<T>, dirs: seq<IVec2>, center: IVec2, k: nat): seq<(nat, IVec2)>
    decreases |dirs| - k
  {
    if k >= |dirs| then []
    else
      var p := center.Plus(dirs[k]);
      (if Contains(g, p) then [(k, p)] else []) + NeighborhoodFrom(g, dirs, center, k + 1)
  }

  /** `neighborhood`: the in-bounds cells center + dir, with the index of dir. */
  function Neighborhood<T>(g: GridValue<T>, dirs: seq<IVec2>, center: IVec2): seq<(nat, IVec2)> {
    NeighborhoodFrom(g, dirs, center, 0)
  }

  function Neighbors4<T>(g: GridValue<T>, center: IVec2): seq<(nat, IVec2)> {
    Neighborhood(g, Neighborhood4, center)
  }

  function Neighbors8<T>(g: GridValue<T>, center: IVec2): seq<(nat, IVec2)> {
    Neighborhood(g, Neighborhood8, center)
  }

  lemma {:induction false} NeighborhoodFromSpec<T>(g: GridValue<T>, dirs: seq<IVec2>, center: IVec2, k: nat)
    ensures var r := NeighborhoodFrom(g, dirs, center, k);
      (forall e :: e in r <==> k <= e.0 < |dirs| && e.1 == center.Plus(dirs[e.0]) && Contains(g, e.1)) &&
      (forall a, b | 0 <= a < b < |r| :: r[a].0 < r[b].0)
    decreases |dirs| - k
  {
    if k < |dirs| {
      NeighborhoodFromSpec(g, dirs, center, k + 1);
    }
  }

  /**
   * The neighbourhood holds exactly the in-bounds cells center + dirs[i], each
   * once with tag i, in increasing tag order.
   */
  lemma NeighborhoodSpec<T>(g: GridValue<T>, dirs: seq<IVec2>, center: IVec2)
    ensures var r := Neighborhood(g, dirs, center);
      (forall e :: e in r <==> e.0 < |dirs| && e.1 == center.Plus(dirs[e.0]) && Contains(g, e.1)) &&
      (forall a, b | 0 <= a < b < |r| :: r[a].0 < r[b].0)
  {
    NeighborhoodFromSpec(g, dirs, center, 0);
  }

  // ---------------------------------------------------------------------
  // Rows, transpose, conversions

  /** `rows`: `chunks_exact(width)`; panics for width 0. */
  function Rows<T>(g: GridValue<T>): (r: seq<seq<T>>)
    requires g.size.x > 0
    ensures |r| == g.size.y
  {
    var w, h := g.size.x, g.size.y;
    seq(h, (y: int) requires 0 <= y < h =>
      RowMajorBound(w - 1, y, w, h);
      assert (y + 1) * w == y * w + w;
      g.cells[y * w .. (y + 1) * w])
  }

  /** Row y of `rows` is the width cells (origin.x + x, origin.y + y), left to right. */
  lemma RowsSpec<T>(g: GridValue<T>)
    requires g.size.x > 0
    ensures forall y | 0 <= y < |Rows(g)| :: |Rows(g)[y]| == g.size.x
    ensures forall x, y | 0 <= x < g.size.x && 0 <= y < g.size.y ::
      Get(g, g.origin.Plus(IVec2(x, y))) == Some(Rows(g)[y][x])
  {
    var w, h := g.size.x, g.size.y;
    forall y | 0 <= y < h ensures |Rows(g)[y]| == w {
      RowMajorBound(w - 1, y, w, h);
      assert (y + 1) * w == y * w + w;
    }
    forall x, y | 0 <= x < w && 0 <= y < h
      ensures Get(g, g.origin.Plus(IVec2(x, y))) == Some(Rows(g)[y][x])
    {
      IndexInBounds(g, g.origin.Plus(IVec2(x, y)));
      RowMajorBound(w - 1, y, w, h);
      assert (y + 1) * w == y * w + w;
    }
  }

  /** The cells handed to f when building the transpose of `g` all map back into `g`. */
  lemma TransposeCellsInBounds<T>(g: GridValue<T>, i: nat)
    requires i < g.size.Yx().Area()
    ensures Contains(g, CellAt(g.origin.Yx(), g.size.Yx(), i).Yx())
    ensures CellAt(Zero, g.size.Yx(), i).Yx().x < g.size.x && CellAt(Zero, g.size.Yx(), i).Yx().y < g.size.y
  {
    AreaPositive(g.size.Yx(), i);
    RowMajorCell(g.size.y, g.size.x, i);
  }

  /**
   * `transpose` as it should read: the cell passed to the reader carries the
   * transposed origin, so cell (y, x) of the result is cell (x, y) of `g`.
   */
  function Transpose<T>(g: GridValue<T>): (r: GridValue<T>)
    ensures r.size == g.size.Yx() && r.origin == g.origin.Yx()
  {
    var f := (c: IVec2) requires Contains(g, c.Yx()) => At(g, c.Yx());
    forall i: nat | i < g.size.Yx().Area() ensures f.requires(CellAt(g.origin.Yx(), g.size.Yx(), i)) {
      TransposeCellsInBounds(g, i);
    }
    FromFnWithOrigin(g.size.Yx(), g.origin.Yx(), f)
  }

  /** Cell (y, x) of the transpose reads cell (x, y) of the grid, in and out of bounds. */
  lemma TransposeGet<T>(g: GridValue<T>, c: IVec2)
    ensures Get(Transpose(g), c.Yx()) == Get(g, c)
  {
    var f := (c: IVec2) requires Contains(g, c.Yx()) => At(g, c.Yx());
    forall i: nat | i < g.size.Yx().Area() ensures f.requires(CellAt(g.origin.Yx(), g.size.Yx(), i)) {
      TransposeCellsInBounds(g, i);
    }
    FromFnGet(g.size.Yx(), g.origin.Yx(), f, c.Yx());
  }

  /** Transposing twice gives back the grid. */
  lemma TransposeTwice<T>(g: GridValue<T>)
    ensures Transpose(Transpose(g)) == g
  {
    var t := Transpose(Transpose(g));
    assert t.size == g.size && t.origin == g.origin;
    forall i | 0 <= i < |g.cells| ensures t.cells[i] == g.cells[i] {
      var c := CellAt(g.origin, g.size, i);
      CellAtInBounds(g, i);
      TransposeGet(g, c);
      TransposeGet(Transpose(g), c.Yx());
      IndexInBounds(t, c);
    }
  }

  /**
   * The as-written transpose reads `g` at every (x, y) with 0 <= x < width and
   * 0 <= y < height, whatever the origin; `grid[cell]` panics unless all of them
   * are inside.
   */
  predicate TransposeReadsInBounds<T>(g: GridValue<T>) {
    forall x, y | 0 <= x < g.size.x && 0 <= y < g.size.y :: Contains(g, IVec2(x, y))
  }

  /** `transpose` as written: it goes through `par_from_fn_with_origin`, which drops the origin. */
  function TransposeAsWritten<T>(g: GridValue<T>): (r: GridValue<T>)
    requires TransposeReadsInBounds(g)
    ensures r.size == g.size.Yx() && r.origin == g.origin.Yx()
  {
    var f := (c: IVec2) requires Contains(g, c.Yx()) => At(g, c.Yx());
    forall i: nat | i < g.size.Yx().Area() ensures f.requires(CellAt(Zero, g.size.Yx(), i)) {
      TransposeCellsInBounds(g, i);
    }
    ParFromFnWithOrigin(g.size.Yx(), g.origin.Yx(), f)
  }

  /**
   * On a non-empty grid the as-written transpose avoids the out-of-bounds panic
   * exactly when the origin is zero, and then it agrees with `Transpose`.
   */
  lemma TransposeAsWrittenNeedsZeroOrigin<T>(g: GridValue<T>)
    requires g.size.x > 0 && g.size.y > 0
    ensures TransposeReadsInBounds(g) <==> g.origin == Zero
    ensures g.origin == Zero ==> TransposeAsWritten(g) == Transpose(g)
  {
    if TransposeReadsInBounds(g) {
      assert Contains(g, IVec2(0, 0));
      assert Contains(g, IVec2(g.size.x - 1, g.size.y - 1));
    }
    if g.origin == Zero {
      assert TransposeAsWritten(g).cells == Transpose(g).cells;
    }
  }

  /** Concrete instance: a 1x1 grid at origin (1, 1) makes the as-written transpose panic. */
  lemma TransposeAsWrittenPanicsAtOffset()
    ensures !TransposeReadsInBounds(RawGrid(IVec2(1, 1), UVec2(1, 1), [true]))
  {
    assert !Contains(RawGrid(IVec2(1, 1), UVec2(1, 1), [true]), IVec2(0, 0));
  }

  /** `Grid<bool>::to_f32`: true becomes 1.0 and false 0.0, keeping the shape. */
  function ToF32(g: GridValue<bool>): (r: GridValue<real>)
    ensures r.origin == g.origin && r.size == g.size
    ensures forall i | 0 <= i < |r.cells| :: r.cells[i] == if g.cells[i] then 1.0 else 0.0
  {
    Map(g, (_, v: bool) => if v then 1.0 else 0.0)
  }

  // ---------------------------------------------------------------------
  // The mutable grid

  class Grid<T> {
    var origin: IVec2
    var size: UVec2
    var data: array<T>

    ghost predicate Valid()
      reads this
    {
      data.Length == size.Area()
    }

    /** The grid's current value. */
    function Value(): GridValue<T>
      reads this, data
      requires Valid()
    {
      RawGrid(origin, size, data[..])
    }

    /** `Grid::new`: width * height copies of `fill` at the zero origin. */
    constructor New(size: UVec2, fill: T)
      requires size.x < I32Max && size.y < I32Max
      ensures Valid() && fresh(data)
      ensures origin == Zero && this.size == size
      ensures forall i | 0 <= i < data.Length :: data[i] == fill
    {
      this.origin := Zero;
      this.size := size;
      this.data := new T[size.Area()](_ => fill);
    }

    /** `Grid::from_data`: panics unless the data has width * height elements. */
    constructor FromData(size: UVec2, cells: seq<T>)
      requires |cells| == size.Area()
      ensures Valid() && fresh(data)
      ensures Value() == RawGrid(Zero, size, cells)
    {
      this.origin := Zero;
      this.size := size;
      this.data := new T[size.Area()](i requires 0 <= i < |cells| => cells[i]);
    }

    /** A fresh array-backed copy of a grid value. */
    constructor Of(g: GridValue<T>)
      ensures Valid() && fresh(data)
      ensures Value() == g
    {
      this.origin := g.origin;
      this.size := g.size;
      this.data := new T[|g.cells|](i requires 0 <= i < |g.cells| => g.cells[i]);
    }

    /** `set`: returns the old value and writes only that cell; outside the grid it returns None. */
    method Set(c: IVec2, v: T) returns (prev: Option<T>)
      requires Valid()
      modifies data
      ensures Valid()
      ensures prev == old(Get(Value(), c))
      ensures Value() == With(old(Value()), c, v)
    {
      if 0 <= c.x - origin.x < size.x && 0 <= c.y - origin.y < size.y {
        var i := (c.y - origin.y) * size.x + (c.x - origin.x);
        IndexInBounds(Value(), c);
        prev := Some(data[i]);
        data[i] := v;
      } else {
        prev := None;
      }
    }

    /** `grid[c] = v` through `IndexMut`: panics outside the grid. */
    method Put(c: IVec2, v: T)
      requires Valid() && Contains(Value(), c)
      modifies data
      ensures Valid()
      ensures Value() == With(old(Value()), c, v)
    {
      IndexInBounds(Value(), c);
      data[(c.y - origin.y) * size.x + (c.x - origin.x)] := v;
    }

    /** `map_inplace`: every entry is replaced by f(cell, value), in row-major order. */
    method MapInPlace(f: (IVec2, T) -> T)
      requires Valid()
      modifies data
      ensures Valid()
      ensures Value() == Map(old(Value()), f)
    {
      var i := 0;
      while i < data.Length
        invariant 0 <= i <= data.Length
        invariant forall k | 0 <= k < i :: data[k] == f(CellAt(origin, size, k), old(data[k]))
        invariant forall k | i <= k < data.Length :: data[k] == old(data[k])
      {
        data[i] := f(CellAt(origin, size, i), data[i]);
        i := i + 1;
      }
    }

    /** `transpose_in_place`: the grid becomes its transpose. */
    method TransposeInPlace()
      requires Valid()
      modifies this
      ensures Valid() && fresh(data)
      ensures Value() == Transpose(old(Value()))
    {
      var t := Transpose(Value());
      origin := t.origin;
      size := t.size;
      data := new T[|t.cells|](i requires 0 <= i < |t.cells| => t.cells[i]);
    }
  }
}
