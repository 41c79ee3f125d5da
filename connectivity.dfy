/**
 * 4-connectivity on boolean masks, shared by the island algorithms of
 * crates/rg_worldgen/src/island.rs and crates/rg_worldgen/src/island_shaping.rs:
 * two cells are linked when a path of 4-adjacent cells, all holding the same
 * value, joins them.  Components are the classes of this relation.
 */
module Connectivity {
  import opened Wrappers
  import opened Grids

  function Left(c: IVec2): IVec2 { IVec2(c.x - 1, c.y) }
  function Right(c: IVec2): IVec2 { IVec2(c.x + 1, c.y) }
  function Above(c: IVec2): IVec2 { IVec2(c.x, c.y - 1) }
  function Below(c: IVec2): IVec2 { IVec2(c.x, c.y + 1) }

  predicate Adjacent(a: IVec2, b: IVec2) {
    b == Left(a) || b == Right(a) || b == Above(a) || b == Below(a)
  }

  lemma AdjacentSym(a: IVec2, b: IVec2)
    ensures Adjacent(a, b) <==> Adjacent(b, a)
  {
  }

  /** A non-empty path of 4-adjacent cells, every one of which holds `v` in g. */
  ghost predicate IsWalk(g: GridValue<bool>, v: bool, p: seq<IVec2>) {
    |p| > 0 &&
    (forall i | 0 <= i < |p| :: Get(g, p[i]) == Some(v)) &&
    (forall i | 0 <= i < |p| - 1 :: Adjacent(p[i], p[i + 1]))
  }

  /** p is such a path from a to b. */
  ghost predicate WalkBetween(g: GridValue<bool>, v: bool, p: seq<IVec2>, a: IVec2, b: IVec2) {
    IsWalk(g, v, p) && p[0] == a && p[|p| - 1] == b
  }

  /** a and b are joined by a path of cells holding v. */
  ghost predicate Linked(g: GridValue<bool>, v: bool, a: IVec2, b: IVec2) {
    exists p :: WalkBetween(g, v, p, a, b)
  }

  /** The v-component of a: every cell linked to it. */
  ghost function Component(g: GridValue<bool>, v: bool, a: IVec2): set<IVec2> {
    set c | c in Cells(g) && Linked(g, v, a, c)
  }

  lemma LinkedRefl(g: GridValue<bool>, v: bool, a: IVec2)
    requires Get(g, a) == Some(v)
    ensures Linked(g, v, a, a)
  {
    assert WalkBetween(g, v, [a], a, a);
  }

  lemma LinkedEnds(g: GridValue<bool>, v: bool, a: IVec2, b: IVec2)
    requires Linked(g, v, a, b)
    ensures Get(g, a) == Some(v) && Get(g, b) == Some(v)
  {
    var p :| WalkBetween(g, v, p, a, b);
  }

  lemma LinkedStep(g: GridValue<bool>, v: bool, a: IVec2, b: IVec2, c: IVec2)
    requires Linked(g, v, a, b) && Adjacent(b, c) && Get(g, c) == Some(v)
    ensures Linked(g, v, a, c)
  {
    var p :| WalkBetween(g, v, p, a, b);
    assert WalkBetween(g, v, p + [c], a, c);
  }

  /** Reading a path backwards. */
  lemma LinkedSym(g: GridValue<bool>, v: bool, a: IVec2, b: IVec2)
    requires Linked(g, v, a, b)
    ensures Linked(g, v, b, a)
  {
    var p :| WalkBetween(g, v, p, a, b);
    var q := seq(|p|, i requires 0 <= i < |p| => p[|p| - 1 - i]);
    forall i | 0 <= i < |q| - 1 ensures Adjacent(q[i], q[i + 1]) {
      AdjacentSym(p[|p| - 2 - i], p[|p| - 1 - i]);
    }
    assert WalkBetween(g, v, q, b, a);
  }

  /** Joining two paths end to start. */
  lemma LinkedTrans(g: GridValue<bool>, v: bool, a: IVec2, b: IVec2, c: IVec2)
    requires Linked(g, v, a, b) && Linked(g, v, b, c)
    ensures Linked(g, v, a, c)
  {
    var p :| WalkBetween(g, v, p, a, b);
    var q :| WalkBetween(g, v, q, b, c);
    var r := p + q[1..];
    assert IsWalk(g, v, r) by {
      forall i | 0 <= i < |r| - 1 ensures Adjacent(r[i], r[i + 1]) {
        if i == |p| - 1 {
          assert r[i + 1] == q[1];
        } else if i >= |p| {
          assert r[i] == q[i - |p| + 1];
        }
      }
    }
    assert r[|r| - 1] == c by {
      if |q| == 1 {
        assert r == p;
      }
    }
    assert WalkBetween(g, v, r, a, c);
  }

  /** Linked cells have the same component. */
  lemma SameComponent(g: GridValue<bool>, v: bool, a: IVec2, b: IVec2)
    requires Linked(g, v, a, b)
    ensures Component(g, v, a) == Component(g, v, b)
  {
    LinkedSym(g, v, a, b);
    forall c | Linked(g, v, a, c) ensures Linked(g, v, b, c) {
      LinkedTrans(g, v, b, a, c);
    }
    forall c | Linked(g, v, b, c) ensures Linked(g, v, a, c) {
      LinkedTrans(g, v, a, b, c);
    }
  }

  /** A component is made of in-bounds cells holding v, and contains its own cell when that holds v. */
  lemma ComponentCells(g: GridValue<bool>, v: bool, a: IVec2)
    ensures forall c | c in Component(g, v, a) :: Get(g, c) == Some(v)
    ensures Get(g, a) == Some(v) ==> a in Component(g, v, a)
  {
    CellsEnumerate(g);
    forall c | c in Component(g, v, a) ensures Get(g, c) == Some(v) {
      LinkedEnds(g, v, a, c);
    }
    if Get(g, a) == Some(v) {
      LinkedRefl(g, v, a);
    }
  }
}
