/**
 * The element-wise operators of the older grid copy
 * (crates/rg_core/src/grid.rs and crates/rg_core/src/grid/ops.rs): binary and
 * scalar operators that build a new grid, compound assignments that update the
 * left grid in place, unary operators, and the float/bool conversions.
 *
 * Each Rust operator trait (Add, Sub, BitAnd, ...) is one instance of the
 * generic `op` parameter.
 */
module GridOps {
  import opened Wrappers
  import opened Grids

  predicate SameShape<T, U>(a: GridValue<T>, b: GridValue<U>) {
    a.size == b.size && a.origin == b.origin
  }

  function ZipWith<T, U>(xs: seq<T>, ys: seq<T>, op: (T, T) -> U): (r: seq<U>)
    requires |xs| == |ys|
    ensures |r| == |xs|
  {
    seq(|xs|, (i: int) requires 0 <= i < |xs| => op(xs[i], ys[i]))
  }

  /**
   * `&a op &b` as written: both size and origin are asserted equal, but the
   * right-hand iterator is taken from `self.values()`, so every cell is
   * op(a, a).
   */
  function BinaryOpAsWritten<T, U>(a: GridValue<T>, b: GridValue<T>, op: (T, T) -> U): (r: GridValue<U>)
    requires SameShape(a, b)
    ensures SameShape(r, a)
  {
    RawGrid(a.origin, a.size, ZipWith(a.cells, a.cells, op))
  }

  /** The as-written operator never looks at its right operand. */
  lemma BinaryOpAsWrittenIgnoresRhs<T, U>(a: GridValue<T>, b1: GridValue<T>, b2: GridValue<T>, op: (T, T) -> U)
    requires SameShape(a, b1) && SameShape(a, b2)
    ensures BinaryOpAsWritten(a, b1, op) == BinaryOpAsWritten(a, b2, op)
    ensures forall c | Contains(a, c) :: Get(BinaryOpAsWritten(a, b1, op), c) == Some(op(At(a, c), At(a, c)))
  {
    forall c | Contains(a, c) ensures Get(BinaryOpAsWritten(a, b1, op), c) == Some(op(At(a, c), At(a, c))) {
      IndexInBounds(a, c);
    }
  }

  /** `&a op &b` as intended: cell by cell, op(a[c], b[c]), keeping the shape. */
  function BinaryOp<T, U>(a: GridValue<T>, b: GridValue<T>, op: (T, T) -> U): (r: GridValue<U>)
    requires SameShape(a, b)
    ensures SameShape(r, a)
  {
    RawGrid(a.origin, a.size, ZipWith(a.cells, b.cells, op))
  }

  lemma BinaryOpGet<T, U>(a: GridValue<T>, b: GridValue<T>, op: (T, T) -> U, c: IVec2)
    requires SameShape(a, b)
    ensures Get(BinaryOp(a, b, op), c) == if Contains(a, c) then Some(op(At(a, c), At(b, c))) else None
  {
    if Contains(a, c) {
      IndexInBounds(a, c);
      IndexInBounds(b, c);
    }
  }

  /**
   * Concrete instance: adding the 1x1 grids [1] and [2] gives [2] as written,
   * and [3] as intended.
   */
  lemma BinaryOpAsWrittenAddsSelf()
    ensures var a, b := RawGrid(Zero, UVec2(1, 1), [1]), RawGrid(Zero, UVec2(1, 1), [2]);
      BinaryOpAsWritten(a, b, (x: int, y: int) => x + y).cells == [2] &&
      BinaryOp(a, b, (x: int, y: int) => x + y).cells == [3]
  {
    var a, b := RawGrid(Zero, UVec2(1, 1), [1]), RawGrid(Zero, UVec2(1, 1), [2]);
    assert BinaryOpAsWritten(a, b, (x: int, y: int) => x + y).cells == [1 + 1];
    assert BinaryOp(a, b, (x: int, y: int) => x + y).cells == [1 + 2];
  }

  /** `&a op s`: op(a[c], s) in every cell, keeping the shape. */
  function ScalarOp<T, U>(a: GridValue<T>, s: T, op: (T, T) -> U): (r: GridValue<U>)
    ensures SameShape(r, a)
  {
    Map(a, (_, v: T) => op(v, s))
  }

  lemma ScalarOpGet<T, U>(a: GridValue<T>, s: T, op: (T, T) -> U, c: IVec2)
    ensures Get(ScalarOp(a, s, op), c) == if Contains(a, c) then Some(op(At(a, c), s)) else None
  {
    MapGet(a, (_, v: T) => op(v, s), c);
  }

  /** `-a` / `!a`: f applied to every cell through `map`, keeping the shape. */
  function UnaryOp<T, U>(a: GridValue<T>, f: T -> U): (r: GridValue<U>)
    ensures SameShape(r, a)
  {
    Map(a, (_, v: T) => f(v))
  }

  lemma UnaryOpGet<T, U>(a: GridValue<T>, f: T -> U, c: IVec2)
    ensures Get(UnaryOp(a, f), c) == if Contains(a, c) then Some(f(At(a, c))) else None
  {
    MapGet(a, (_, v: T) => f(v), c);
  }

  /** Negating a number grid twice gives it back. */
  lemma NegTwice(a: GridValue<real>)
    ensures UnaryOp(UnaryOp(a, (v: real) => -v), (v: real) => -v) == a
  {
    var n := UnaryOp(UnaryOp(a, (v: real) => -v), (v: real) => -v);
    forall i | 0 <= i < |a.cells| ensures n.cells[i] == a.cells[i] {
      MapValues(a, (_, v: real) => -v, (v: real) => -v);
      MapValues(UnaryOp(a, (v: real) => -v), (_, v: real) => -v, (v: real) => -v);
    }
    assert n.cells == a.cells;
  }

  /**
   * `lhs op= &rhs`: asserts equal size and origin, then replaces each left cell
   * by op(left, right) in place.  (Rust's borrow rules keep the two grids apart.)
   */
  method CompoundAssign<T>(lhs: Grid<T>, rhs: Grid<T>, op: (T, T) -> T)
    requires lhs.Valid() && rhs.Valid() && lhs.data != rhs.data
    requires SameShape(lhs.Value(), rhs.Value())
    modifies lhs.data
    ensures lhs.Valid()
    ensures lhs.Value() == BinaryOp(old(lhs.Value()), rhs.Value(), op)
  {
    var i := 0;
    while i < lhs.data.Length
      invariant 0 <= i <= lhs.data.Length
      invariant forall k | 0 <= k < i :: lhs.data[k] == op(old(lhs.data[k]), rhs.data[k])
      invariant forall k | i <= k < lhs.data.Length :: lhs.data[k] == old(lhs.data[k])
    {
      lhs.data[i] := op(lhs.data[i], rhs.data[i]);
      i := i + 1;
    }
  }

  /** `lhs op= s`: every cell becomes op(cell, s) in place; nothing else changes. */
  method CompoundAssignScalar<T>(lhs: Grid<T>, s: T, op: (T, T) -> T)
    requires lhs.Valid()
    modifies lhs.data
    ensures lhs.Valid()
    ensures lhs.Value() == ScalarOp(old(lhs.Value()), s, op)
  {
    var i := 0;
    while i < lhs.data.Length
      invariant 0 <= i <= lhs.data.Length
      invariant forall k | 0 <= k < i :: lhs.data[k] == op(old(lhs.data[k]), s)
      invariant forall k | i <= k < lhs.data.Length :: lhs.data[k] == old(lhs.data[k])
    {
      lhs.data[i] := op(lhs.data[i], s);
      i := i + 1;
    }
  }

  /** `to_bool(cutoff)`: true exactly where the value is above the cutoff. */
  function ToBool(g: GridValue<real>, cutoff: real): (r: GridValue<bool>)
    ensures SameShape(r, g)
  {
    Map(g, (_, v: real) => v > cutoff)
  }

  lemma ToBoolGet(g: GridValue<real>, cutoff: real, c: IVec2)
    ensures Get(ToBool(g, cutoff), c) == Some(true) <==> Contains(g, c) && At(g, c) > cutoff
    ensures Get(ToBool(g, cutoff), c) == Some(false) <==> Contains(g, c) && At(g, c) <= cutoff
  {
    MapGet(g, (_, v: real) => v > cutoff, c);
  }

  /** Converting a mask to 1.0/0.0 and cutting anywhere in [0, 1) gives the mask back. */
  lemma ToBoolOfToF32(g: GridValue<bool>, cutoff: real)
    requires 0.0 <= cutoff < 1.0
    ensures ToBool(ToF32(g), cutoff) == g
  {
    var r := ToBool(ToF32(g), cutoff);
    forall i | 0 <= i < |g.cells| ensures r.cells[i] == g.cells[i] {
      MapValues(ToF32(g), (_, v: real) => v > cutoff, (v: real) => v > cutoff);
    }
    assert r.cells == g.cells;
  }
}
