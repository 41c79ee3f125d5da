/**
 * The earlier chunk registry of crates/rg_terrain/src/chunks.rs: a map from
 * chunk positions to entities whose `get_neighbors` reports, for each of the
 * eight `NEIGHBOR_DIRS`, the neighbour's position together with its entity.
 */
module EarlyChunks {
  import opened Wrappers
  import opened Grids
  import Chunk

  /** `NEIGHBOR_DIRS`: clockwise around the centre, starting at (-1, -1). */
  const NeighborDirs: seq<IVec2> := [
    IVec2(-1, -1), IVec2(-1, 0), IVec2(-1, 1), IVec2(0, 1),
    IVec2(1, 1), IVec2(1, 0), IVec2(1, -1), IVec2(0, -1)
  ]

  /** An offset to one of the eight cells around a cell. */
  predicate IsNeighborOffset(d: IVec2) {
    -1 <= d.x <= 1 && -1 <= d.y <= 1 && d != IVec2(0, 0)
  }

  /**
   * `NEIGHBOR_DIRS` lists the eight offsets to the surrounding cells, each
   * exactly once, and nothing else.
   */
  lemma NeighborDirsExact()
    ensures |NeighborDirs| == 8
    ensures forall i | 0 <= i < 8 :: IsNeighborOffset(NeighborDirs[i])
    ensures forall i, j | 0 <= i < j < 8 :: NeighborDirs[i] != NeighborDirs[j]
    ensures forall d: IVec2 | IsNeighborOffset(d) :: d in NeighborDirs
  {
    forall d: IVec2 | IsNeighborOffset(d) ensures d in NeighborDirs {
      if d.x == -1 {
        assert d == NeighborDirs[1 + d.y];
      } else if d.x == 0 {
        assert d == (if d.y == 1 then NeighborDirs[3] else NeighborDirs[7]);
      } else {
        assert d == NeighborDirs[5 - d.y];
      }
    }
  }

  class Chunks {
    var entries: map<IVec2, Chunk.Entity>

    constructor ()
      ensures entries == map[]
    {
      entries := map[];
    }

    /** `insert`: afterwards `get(pos)` is `Some(id)`; every other entry is kept. */
    method Insert(pos: IVec2, id: Chunk.Entity)
      modifies this
      ensures entries == old(entries)[pos := id]
      ensures Get(pos) == Some(id)
    {
      entries := entries[pos := id];
    }

    /** `get`: the entity registered at pos, if any. */
    function Get(pos: IVec2): (r: Option<Chunk.Entity>) reads this
      ensures r.None? <==> pos !in entries
      ensures r.Some? ==> r.value == entries[pos]
    {
      if pos in entries then Some(entries[pos]) else None
    }

    /**
     * `get_neighbors`: entry i is the neighbour in direction
     * `NEIGHBOR_DIRS[i]` paired with its entity when that position is
     * present, and `None` when it is not.
     */
    function GetNeighbors(pos: IVec2): (r: seq<Option<(IVec2, Chunk.Entity)>>)
      reads this
      ensures |r| == 8
      ensures forall i | 0 <= i < 8 ::
        (var n := pos.Plus(NeighborDirs[i]);
         if n in entries then r[i] == Some((n, entries[n])) else r[i] == None)
    {
      seq(8, i requires 0 <= i < 8 reads this =>
        var n := pos.Plus(NeighborDirs[i]);
        match Get(n)
        case Some(id) => Some((n, id))
        case None => None)
    }

    /** `remove`: only pos is deleted. */
    method Remove(pos: IVec2)
      modifies this
      ensures entries == old(entries) - {pos}
      ensures Get(pos) == None && forall q | q != pos :: Get(q) == old(Get(q))
    {
      entries := entries - {pos};
    }
  }

  /**
   * The neighbours `get_neighbors` reports are exactly the present chunks
   * around pos: each reported one is present and adjacent, and each
   * present adjacent chunk is reported once.
   */
  lemma NeighborsAreAdjacentChunks(c: Chunks, pos: IVec2)
    ensures forall i | 0 <= i < 8 && c.GetNeighbors(pos)[i].Some? ::
      c.GetNeighbors(pos)[i].value.0 in c.entries && IsNeighborOffset(c.GetNeighbors(pos)[i].value.0.Minus(pos))
    ensures forall d: IVec2 | IsNeighborOffset(d) && pos.Plus(d) in c.entries ::
      exists i | 0 <= i < 8 :: c.GetNeighbors(pos)[i] == Some((pos.Plus(d), c.entries[pos.Plus(d)]))
  {
    NeighborDirsExact();
    var r := c.GetNeighbors(pos);
    forall i | 0 <= i < 8 && r[i].Some?
      ensures r[i].value.0 in c.entries && IsNeighborOffset(r[i].value.0.Minus(pos))
    {
      assert r[i].value.0 == pos.Plus(NeighborDirs[i]);
    }
    forall d: IVec2 | IsNeighborOffset(d) && pos.Plus(d) in c.entries
      ensures exists i | 0 <= i < 8 :: r[i] == Some((pos.Plus(d), c.entries[pos.Plus(d)]))
    {
      var i :| 0 <= i < 8 && NeighborDirs[i] == d;
      assert r[i] == Some((pos.Plus(d), c.entries[pos.Plus(d)]));
    }
  }
}
