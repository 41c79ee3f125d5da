/**
 * The walkability graph of crates/rg_navigation/src/generator.rs.
 *
 * The navigation heightmap holds, per cell, the height an agent can stand
 * at, or NaN where it cannot stand (modelled as `None`).
 * `generate_connections` gives every cell a byte whose bit i says that the
 * agent can step to the neighbour in direction `NEIGHBORHOOD_4[i]`: both
 * cells are walkable and their heights differ by at most the climb height.
 * Building the heightmap itself casts shapes through the physics engine and
 * is not part of this model.
 */
module Navigation {
  import opened Wrappers
  import opened Grids
  import ChunkUnits

  /** `NAVMESH_SIZE`: a navigation mesh spans two chunks of tiles on each side. */
  const NavMeshSize: nat := 2 * ChunkUnits.ChunkTiles

  lemma NavMeshSizeValue()
    ensures NavMeshSize == 64 && NavMeshSize == 2 * ChunkUnits.ChunkTiles
  {
  }

  /** A heightmap cell: the standing height, or None for NaN. */
  type Heightmap = GridValue<Option<real>>

  function Abs(x: real): real {
    if x < 0.0 then -x else x
  }

  /** The height at a cell; None outside the map as well as for NaN. */
  function HeightAt(h: Heightmap, c: IVec2): Option<real> {
    match Get(h, c)
    case None => None
    case Some(v) => v
  }

  /**
   * The agent can step from `cell` to its neighbour in direction i: both are
   * on the map and walkable, and their heights differ by at most `climb`.
   */
  predicate Linked(h: Heightmap, climb: real, cell: IVec2, i: nat) {
    i < 4 &&
    HeightAt(h, cell).Some? && HeightAt(h, cell.Plus(Neighborhood4[i])).Some? &&
    Abs(HeightAt(h, cell).value - HeightAt(h, cell.Plus(Neighborhood4[i])).value) <= climb
  }

  /** `1 << i` as a byte. */
  function Bit(i: nat): bv8
    requires i < 8
  {
    match i
    case 0 => 0x01 case 1 => 0x02 case 2 => 0x04 case 3 => 0x08
    case 4 => 0x10 case 5 => 0x20 case 6 => 0x40 case _ => 0x80
  }

  /** Bit i of a byte is set. */
  predicate HasBit(b: bv8, i: nat)
    requires i < 8
  {
    b & Bit(i) != 0
  }

  /** The bit of direction i when the step is possible. */
  function LinkBit(h: Heightmap, climb: real, cell: IVec2, i: nat): bv8
    requires i < 4
  {
    if Linked(h, climb, cell, i) then Bit(i) else 0
  }

  /** The connection byte of a cell: the bits of the four directions. */
  function Connections(h: Heightmap, climb: real, cell: IVec2): bv8 {
    LinkBit(h, climb, cell, 0) | LinkBit(h, climb, cell, 1) | LinkBit(h, climb, cell, 2) | LinkBit(h, climb, cell, 3)
  }

  /**
   * Bit i of a cell's byte is set iff the agent can step in direction i, so
   * a NaN cell gets 0 and every byte is below 16.
   */
  lemma ConnectionsBits(h: Heightmap, climb: real, cell: IVec2)
    ensures forall i: nat | i < 8 :: HasBit(Connections(h, climb, cell), i) <==> Linked(h, climb, cell, i)
    ensures Connections(h, climb, cell) < 16
    ensures HeightAt(h, cell).None? ==> Connections(h, climb, cell) == 0
  {
    var l0, l1, l2, l3 := LinkBit(h, climb, cell, 0), LinkBit(h, climb, cell, 1), LinkBit(h, climb, cell, 2), LinkBit(h, climb, cell, 3);
    assert Bit(0) == 1 && Bit(1) == 2 && Bit(2) == 4 && Bit(3) == 8;
    forall i: nat | i < 8 ensures HasBit(l0 | l1 | l2 | l3, i) <==> Linked(h, climb, cell, i) {
      if i >= 4 {
        assert !Linked(h, climb, cell, i);
      }
    }
  }

  /**
   * Steps are symmetric: the agent can step from c in direction i iff it can
   * step back from the neighbour in the opposite direction (i + 2) mod 4.
   */
  lemma LinkedSymmetric(h: Heightmap, climb: real, c: IVec2, i: nat)
    requires i < 4
    ensures Linked(h, climb, c, i) <==> Linked(h, climb, c.Plus(Neighborhood4[i]), (i + 2) % 4)
  {
    var n := c.Plus(Neighborhood4[i]);
    assert n.Plus(Neighborhood4[(i + 2) % 4]) == c;
    if HeightAt(h, c).Some? && HeightAt(h, n).Some? {
      var a, b := HeightAt(h, c).value, HeightAt(h, n).value;
      assert Abs(a - b) == Abs(b - a);
    }
  }

  /** Hence bit i of c's byte and bit (i + 2) mod 4 of its neighbour's byte agree. */
  lemma ConnectionsSymmetric(h: Heightmap, climb: real, c: IVec2, i: nat)
    requires i < 4
    ensures HasBit(Connections(h, climb, c), i) <==>
      HasBit(Connections(h, climb, c.Plus(Neighborhood4[i])), (i + 2) % 4)
  {
    ConnectionsBits(h, climb, c);
    ConnectionsBits(h, climb, c.Plus(Neighborhood4[i]));
    LinkedSymmetric(h, climb, c, i);
  }

  /**
   * The closure `generate_connections` evaluates per cell: 0 for a NaN
   * cell, else the bits of the in-bounds neighbours (`neighborhood_4`, in
   * tag order) that are walkable and within the climb height.
   */
  method CellConnections(h: Heightmap, climb: real, cell: IVec2) returns (connections: bv8)
    requires Contains(h, cell)
    ensures connections == Connections(h, climb, cell)
  {
    var cellHeight := At(h, cell);
    if cellHeight.None? {
      ConnectionsBits(h, climb, cell);
      return 0;
    }
    var ns := Neighbors4(h, cell);
    ghost var linked := LinkedDirections(h, climb, cell);
    connections := 0;
    ghost var seen: set<nat> := {};
    var j := 0;
    while j < |ns|
      invariant j <= |ns| && ScanInv(ns, linked, j, connections, seen)
    {
      var (i, neighbor) := ns[j];
      ListedLink(h, climb, cell, j);
      var neighborHeight := At(h, neighbor);
      ghost var before := connections;
      if neighborHeight.Some? && Abs(cellHeight.value - neighborHeight.value) <= climb {
        connections := connections | Bit(i);
      }
      ScanStep(ns, linked, j, before, seen, connections);
      seen := seen + {i};
      j := j + 1;
    }
    ScanDone(h, climb, cell, connections, seen);
  }

  /** The directions the agent can step in from the cell. */
  function LinkedDirections(h: Heightmap, climb: real, cell: IVec2): (r: set<nat>)
    ensures forall t: nat :: t in r <==> Linked(h, climb, cell, t)
  {
    set t: nat | t < 4 && Linked(h, climb, cell, t)
  }

  /**
   * The scan so far: the tags of the first j listed neighbours are seen,
   * and the byte has exactly the bits of the seen directions that are
   * linked.
   */
  predicate ScanInv(ns: seq<(nat, IVec2)>, linked: set<nat>, j: nat, connections: bv8, seen: set<nat>) {
    j <= |ns| &&
    (forall m | 0 <= m < j :: ns[m].0 in seen) &&
    (forall t: nat | t < 8 :: HasBit(connections, t) <==> t in seen && t in linked)
  }

  lemma ScanStep(ns: seq<(nat, IVec2)>, linked: set<nat>, j: nat, before: bv8, seen: set<nat>, after: bv8)
    requires j < |ns| && ns[j].0 < 8 && ScanInv(ns, linked, j, before, seen)
    requires after == if ns[j].0 in linked then before | Bit(ns[j].0) else before
    ensures ScanInv(ns, linked, j + 1, after, seen + {ns[j].0})
  {
    var i := ns[j].0;
    var seen' := seen + {i};
    assert forall m | 0 <= m < j + 1 :: ns[m].0 in seen' by {
      forall m | 0 <= m < j + 1 ensures ns[m].0 in seen' {
        if m < j {
          assert ns[m].0 in seen;
        }
      }
    }
    if i in linked {
      OrBit(before, i);
    }
  }

  lemma ScanDone(h: Heightmap, climb: real, cell: IVec2, connections: bv8, seen: set<nat>)
    requires ScanInv(Neighbors4(h, cell), LinkedDirections(h, climb, cell), |Neighbors4(h, cell)|, connections, seen)
    ensures connections == Connections(h, climb, cell)
  {
    forall t: nat | t < 8 && Linked(h, climb, cell, t) ensures t in seen {
      var m := LinkedIsListed(h, climb, cell, t);
    }
    ConnectionsBits(h, climb, cell);
    BitsDetermineByte(connections, Connections(h, climb, cell));
  }

  /** For a listed neighbour, the step test is the loop's test on the two heights. */
  lemma ListedLink(h: Heightmap, climb: real, cell: IVec2, j: nat)
    requires Contains(h, cell) && At(h, cell).Some? && j < |Neighbors4(h, cell)|
    ensures var e := Neighbors4(h, cell)[j];
      e.0 < 4 && Contains(h, e.1) &&
      (Linked(h, climb, cell, e.0) <==> At(h, e.1).Some? && Abs(At(h, cell).value - At(h, e.1).value) <= climb)
  {
    NeighborhoodSpec(h, Neighborhood4, cell);
    var e := Neighbors4(h, cell)[j];
    assert e in Neighbors4(h, cell);
  }

  /** A direction the agent can step in is among the tags `neighborhood_4` lists. */
  lemma LinkedIsListed(h: Heightmap, climb: real, cell: IVec2, t: nat) returns (m: nat)
    requires Linked(h, climb, cell, t)
    ensures m < |Neighbors4(h, cell)| && Neighbors4(h, cell)[m].0 == t
  {
    NeighborhoodSpec(h, Neighborhood4, cell);
    var ns := Neighbors4(h, cell);
    var e := (t, cell.Plus(Neighborhood4[t]));
    assert Get(h, e.1).Some?;
    assert e in ns;
    m :| 0 <= m < |ns| && ns[m] == e;
  }

  /** Setting bit i sets exactly that bit. */
  lemma OrBit(a: bv8, i: nat)
    requires i < 8
    ensures forall t: nat | t < 8 :: HasBit(a | Bit(i), t) <==> HasBit(a, t) || t == i
  {
  }

  /** Two bytes with the same bits are equal. */
  lemma BitsDetermineByte(a: bv8, b: bv8)
    requires forall t: nat | t < 8 :: HasBit(a, t) <==> HasBit(b, t)
    ensures a == b
  {
    assert HasBit(a, 0) == HasBit(b, 0) && HasBit(a, 1) == HasBit(b, 1);
    assert HasBit(a, 2) == HasBit(b, 2) && HasBit(a, 3) == HasBit(b, 3);
    assert HasBit(a, 4) == HasBit(b, 4) && HasBit(a, 5) == HasBit(b, 5);
    assert HasBit(a, 6) == HasBit(b, 6) && HasBit(a, 7) == HasBit(b, 7);
  }

  /**
   * `generate_connections`: a grid of the heightmap's size whose every cell
   * holds its connection byte.  The heightmap starts at the zero origin, as
   * `Grid::from_fn` builds it; the closure indexes it with the cells of a
   * zero-origin grid.
   */
  function GenerateConnections(h: Heightmap, climb: real): (r: GridValue<bv8>)
    requires h.origin == Zero
    ensures r.size == h.size && r.origin == Zero
    ensures forall c | Contains(r, c) :: Contains(h, c) && Get(r, c) == Some(Connections(h, climb, c))
  {
    forall i: nat | i < h.size.Area() ensures Contains(h, CellAt(Zero, h.size, i)) {
      CellAtInBounds(h, i);
    }
    var f := (c: IVec2) requires Contains(h, c) => Connections(h, climb, c);
    var r := FromFnWithOrigin(h.size, Zero, f);
    forall c | Contains(r, c) ensures Contains(h, c) && Get(r, c) == Some(Connections(h, climb, c)) {
      FromFnGet(h.size, Zero, f, c);
    }
    r
  }
}
