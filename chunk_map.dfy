/**
 * `ChunkMap<T>` of crates/rg_terrain/src/map.rs: one value per point of a
 * chunk, `res` × `res` of them (`CHUNK_RESOLUTION`), stored column-major
 * behind an `Arc`.  Writes go through a `ChunkMapRefMut` obtained
 * with `make_mut`, which copies the storage when it is shared, so a write
 * never shows through another clone.
 *
 * The storage is the field `data` of the `ChunkMap` object; a clone is
 * another object with an equal `data`.
 */
module ChunkMaps {
  import opened Grids
  import opened Arith

  /** `index`: column-major, x · res + y; inside the chunk it addresses one of the res² slots. */
  function MapIndex(pos: UVec2, res: nat): (i: nat)
    ensures pos.x < res && pos.y < res ==> i < res * res
  {
    assert pos.x < res && pos.y < res ==> pos.x * res + pos.y < res * res by {
      if pos.x < res && pos.y < res {
        RowMajorBound(pos.y, pos.x, res, res);
      }
    }
    pos.x * res + pos.y
  }

  /** Distinct points of the chunk get distinct slots. */
  lemma IndexInjective(pos: UVec2, q: UVec2, res: nat)
    requires pos.x < res && pos.y < res && q.x < res && q.y < res
    ensures MapIndex(pos, res) == MapIndex(q, res) ==> pos == q
  {
    if MapIndex(pos, res) == MapIndex(q, res) {
      DivModUnique(MapIndex(pos, res), res, pos.x, pos.y);
      DivModUnique(MapIndex(q, res), res, q.x, q.y);
    }
  }

  class ChunkMap<T> {
    const res: nat
    var data: seq<T>

    predicate Valid() reads this {
      |data| == res * res
    }

    predicate Inside(pos: UVec2) {
      pos.x < res && pos.y < res
    }

    /** `ChunkMap::new(fill)` (and `Default`, with the default value as fill): every slot holds fill. */
    constructor (res: nat, fill: T)
      ensures Valid() && this.res == res
      ensures forall i | 0 <= i < |data| :: data[i] == fill
    {
      this.res := res;
      data := seq(res * res, _ => fill);
    }

    /**
     * `get`: the value in slot x · res + y.  The index is not checked
     * against the chunk: only a slot past the end panics, and a point with
     * y ≥ res reads a slot of the next column (see `GetAliases`).
     */
    function Get(pos: UVec2): (r: T)
      reads this
      requires Valid() && MapIndex(pos, res) < res * res
      ensures r in data
    {
      data[MapIndex(pos, res)]
    }

    /** A clone: a new map holding the same values. */
    method Clone() returns (c: ChunkMap<T>)
      requires Valid()
      ensures fresh(c) && c.Valid() && c.res == res && c.data == data
    {
      c := new ChunkMap.Copy(res, data);
    }

    constructor Copy(res: nat, data: seq<T>)
      ensures this.res == res && this.data == data
    {
      this.res := res;
      this.data := data;
    }

    /** `make_mut`: a writing handle on this map's own storage. */
    method MakeMut() returns (r: ChunkMapRefMut<T>)
      ensures fresh(r) && r.target == this
    {
      r := new ChunkMapRefMut(this);
    }
  }

  /** `ChunkMapRefMut`: writes land in the storage of the one map it was made from. */
  class ChunkMapRefMut<T> {
    const target: ChunkMap<T>

    constructor (target: ChunkMap<T>)
      ensures this.target == target
    {
      this.target := target;
    }

    /** `get` through a handle reads the storage of the map it was made from. */
    function Get(pos: UVec2): (r: T)
      reads target
      requires target.Valid() && MapIndex(pos, target.res) < target.res * target.res
      ensures r == target.data[MapIndex(pos, target.res)]
    {
      target.Get(pos)
    }

    /**
     * `set` (and a write through `get_mut`, which addresses the same slot):
     * afterwards pos reads v, every other point reads what it read before,
     * and no other map changes.
     */
    method Set(pos: UVec2, v: T)
      requires target.Valid() && MapIndex(pos, target.res) < target.res * target.res
      modifies target`data
      ensures target.Valid() && target.Get(pos) == v
      ensures forall q | MapIndex(q, target.res) < target.res * target.res && MapIndex(q, target.res) != MapIndex(pos, target.res) ::
        target.Get(q) == old(target.Get(q))
      ensures target.Inside(pos) ==> forall q | target.Inside(q) && q != pos :: target.Get(q) == old(target.Get(q))
    {
      ghost var d0 := target.data;
      target.data := target.data[MapIndex(pos, target.res) := v];
      if target.Inside(pos) {
        SlotUpdate(d0, target.res, pos, v);
      }
    }
  }

  /** Writing the slot of pos changes what pos reads and nothing else. */
  lemma SlotUpdate<T>(d: seq<T>, res: nat, pos: UVec2, v: T)
    requires |d| == res * res && pos.x < res && pos.y < res
    ensures MapIndex(pos, res) < |d|
    ensures forall q: UVec2 | q.x < res && q.y < res && q != pos :: d[MapIndex(pos, res) := v][MapIndex(q, res)] == d[MapIndex(q, res)]
  {
    forall q: UVec2 | q.x < res && q.y < res && q != pos
      ensures d[MapIndex(pos, res) := v][MapIndex(q, res)] == d[MapIndex(q, res)]
    {
      IndexInjective(pos, q, res);
    }
  }

  /**
   * The index is not checked against the chunk: a point past the last row
   * of a column reads the same slot as the point res rows up in the next
   * column.
   */
  lemma GetAliases<T>(m: ChunkMap<T>, pos: UVec2)
    requires m.Valid() && pos.y >= m.res && MapIndex(pos, m.res) < m.res * m.res
    ensures MapIndex(UVec2(pos.x + 1, pos.y - m.res), m.res) == MapIndex(pos, m.res)
    ensures m.Get(UVec2(pos.x + 1, pos.y - m.res)) == m.Get(pos)
  {
    assert (pos.x + 1) * m.res == pos.x * m.res + m.res;
  }

  /** Copy-on-write: writing through a handle on one clone leaves the other clone as it was. */
  method WriteOneClone<T>(a: ChunkMap<T>, pos: UVec2, v: T) returns (b: ChunkMap<T>)
    requires a.Valid() && a.Inside(pos)
    modifies a
    ensures fresh(b) && b.Valid() && b.data == old(a.data)
    ensures a.Valid() && a.Get(pos) == v
  {
    b := a.Clone();
    var r := a.MakeMut();
    r.Set(pos, v);
  }
}
