/**
 * The chunk registry and the floating world origin of
 * crates/rg_terrain/src/chunk.rs.
 *
 * `Chunks` maps chunk positions to the entity of the chunk; `spawn_chunks`
 * adds a chunk for every position of its square around the spawn centre
 * that is close enough and not yet present; `update_origin` moves the world
 * origin by whole chunks so that the spawn centre stays within half a chunk
 * of it, and moves every floating object by the opposite amount.
 *
 * Floating-point values are reals: `round` is rounding half away from zero
 * and `ceil` the ceiling, both exact.  Entities are opaque ids; the id a
 * spawned chunk gets is an oracle parameter.
 */
/** The sizes of crates/rg_terrain/src/chunk.rs every terrain module shares. */
module ChunkUnits {
  /** `CHUNK_SIZE`: the side of a chunk in world units. */
  const ChunkSize: real := 16.0
  /** `CHUNK_TILES`: tiles along each side of a chunk. */
  const ChunkTiles: nat := 32
  /** `TILE_SIZE`: the side of a tile in world units. */
  const TileSize: real := 0.5
}

module Chunk {
  import opened Wrappers
  import opened Grids
  import opened MeshData
  import opened ChunkUnits

  /** An ECS entity id. */
  datatype Entity = Entity(id: nat)


  /** `f32::round`: to the nearest integer, halves away from zero. */
  function Round(r: real): int {
    if r >= 0.0 then (r + 0.5).Floor else -((0.5 - r).Floor)
  }

  /** `f32::ceil`. */
  function Ceil(r: real): int {
    -((-r).Floor)
  }

  /** `round` moves a value by at most one half. */
  lemma RoundClose(r: real)
    ensures -0.5 <= r - Round(r) as real <= 0.5
  {
  }

  /** `chunk_pos_to_world`: the world position of a chunk's corner relative to the origin chunk. */
  function ChunkPosToWorld(origin: IVec2, chunk: IVec2): (r: Vec2)
    ensures r == Vec2(0.0, 0.0) <==> chunk == origin
  {
    Vec2((chunk.x - origin.x) as real * ChunkSize, (chunk.y - origin.y) as real * ChunkSize)
  }

  /** `tile_pos_to_world`: the world position of a tile's corner relative to the origin chunk. */
  function TilePosToWorld(origin: IVec2, chunk: IVec2, tile: IVec2): (r: Vec2)
    ensures tile == IVec2(0, 0) ==> r == ChunkPosToWorld(origin, chunk)
    ensures 0 <= tile.x < ChunkTiles && 0 <= tile.y < ChunkTiles ==>
      var c := ChunkPosToWorld(origin, chunk);
      c.x <= r.x && r.x + TileSize <= c.x + ChunkSize && c.y <= r.y && r.y + TileSize <= c.y + ChunkSize
  {
    Vec2(ChunkPosToWorld(origin, chunk).x + tile.x as real * TileSize, ChunkPosToWorld(origin, chunk).y + tile.y as real * TileSize)
  }

  /**
   * The tiles of a chunk tile it exactly: tile (0, 0) sits at the chunk's
   * corner, and every tile of the chunk lies in its square, the last one
   * ending at the next chunk's corner.
   */
  lemma TilesCoverChunk(origin: IVec2, chunk: IVec2, tile: IVec2)
    requires 0 <= tile.x < ChunkTiles && 0 <= tile.y < ChunkTiles
    ensures TilePosToWorld(origin, chunk, IVec2(0, 0)) == ChunkPosToWorld(origin, chunk)
    ensures var w, c := TilePosToWorld(origin, chunk, tile), ChunkPosToWorld(origin, chunk);
      c.x <= w.x && w.x + TileSize <= c.x + ChunkSize && c.y <= w.y && w.y + TileSize <= c.y + ChunkSize
    ensures TilePosToWorld(origin, chunk, IVec2(ChunkTiles as int, 0)) == ChunkPosToWorld(origin, chunk.Plus(IVec2(1, 0)))
    ensures TilePosToWorld(origin, chunk, IVec2(0, ChunkTiles as int)) == ChunkPosToWorld(origin, chunk.Plus(IVec2(0, 1)))
  {
  }

  /** The centre of a chunk in world units, as `spawn_chunks` and `despawn_chunks` compute it. */
  function ChunkCenter(origin: IVec2, chunk: IVec2): Vec2 {
    Vec2(((chunk.x - origin.x) as real + 0.5) * ChunkSize, ((chunk.y - origin.y) as real + 0.5) * ChunkSize)
  }

  function DistanceSquared(a: Vec2, b: Vec2): real {
    (a.x - b.x) * (a.x - b.x) + (a.y - b.y) * (a.y - b.y)
  }

  /** The test of `spawn_chunks` and `despawn_chunks`: the chunk's centre is within `radius` of `center`. */
  predicate WithinRadius(origin: IVec2, chunk: IVec2, center: Vec2, radius: real) {
    DistanceSquared(ChunkCenter(origin, chunk), center) <= radius * radius
  }

  /** The chunk `spawn_chunks` centres its square on: the origin moved by the centre in whole chunks. */
  function SpawnCenter(origin: IVec2, center: Vec2): IVec2 {
    IVec2(origin.x + Round(center.x / ChunkSize), origin.y + Round(center.y / ChunkSize))
  }

  /** Half the side of the square `spawn_chunks` scans, in chunks. */
  function SpawnReach(radius: real): int {
    Ceil(radius / ChunkSize)
  }

  /** Inside the square of `spawn_chunks`: at most `d` chunks from `c` on both axes. */
  predicate InSquare(c: IVec2, d: int, p: IVec2) {
    c.x - d <= p.x <= c.x + d && c.y - d <= p.y <= c.y + d
  }

  class Chunks {
    var entries: map<IVec2, Entity>

    constructor ()
      ensures entries == map[]
    {
      entries := map[];
    }

    /** `insert`: pos now maps to id; every other entry is kept. */
    method Insert(pos: IVec2, id: Entity)
      modifies this
      ensures entries == old(entries)[pos := id]
      ensures Get(pos) == Some(id) && Contains(pos)
    {
      entries := entries[pos := id];
    }

    /** `contains`: pos is registered, that is, `get` finds an entity for it. */
    predicate Contains(pos: IVec2) reads this
      ensures Contains(pos) <==> Get(pos).Some?
    {
      pos in entries
    }

    /** `get`: the entity registered at pos, if any. */
    function Get(pos: IVec2): (r: Option<Entity>) reads this
      ensures r.None? <==> pos !in entries
      ensures r.Some? ==> r.value == entries[pos]
    {
      if pos in entries then Some(entries[pos]) else None
    }

    /** `get_neighbors`: the entry of each of the eight surrounding positions, in `NEIGHBORHOOD_8` order. */
    function GetNeighbors(pos: IVec2): (r: seq<Option<Entity>>)
      reads this
      ensures |r| == 8
      ensures forall i | 0 <= i < 8 :: (r[i].Some? <==> pos.Plus(Neighborhood8[i]) in entries)
      ensures forall i | 0 <= i < 8 && r[i].Some? :: r[i].value == entries[pos.Plus(Neighborhood8[i])]
    {
      seq(8, i requires 0 <= i < 8 reads this => Get(pos.Plus(Neighborhood8[i])))
    }

    /** `remove`: pos is gone, every other entry is kept. */
    method Remove(pos: IVec2)
      modifies this
      ensures entries == old(entries) - {pos}
      ensures !Contains(pos) && forall q | q != pos :: Get(q) == old(Get(q))
    {
      entries := entries - {pos};
    }

    /** `retain`: exactly the entries f accepts stay, unchanged. */
    method Retain(f: (IVec2, Entity) -> bool)
      modifies this
      ensures entries.Keys <= old(entries).Keys
      ensures forall p | p in old(entries) :: (p in entries <==> f(p, old(entries)[p]))
      ensures forall p | p in entries :: entries[p] == old(entries)[p]
    {
      var todo := entries.Keys;
      ghost var e0 := entries;
      while todo != {}
        invariant todo <= e0.Keys && entries.Keys <= e0.Keys
        invariant forall p | p in e0 && p !in todo :: (p in entries <==> f(p, e0[p]))
        invariant forall p | p in todo :: p in entries
        invariant forall p | p in entries :: entries[p] == e0[p]
        decreases todo
      {
        var p :| p in todo;
        if !f(p, entries[p]) {
          entries := entries - {p};
        }
        todo := todo - {p};
      }
    }

    /**
     * The inner loop of `spawn_chunks` over one column sx of the square:
     * every position close enough and not yet present gets a new chunk,
     * with the id the oracle `spawn` hands out.
     */
    method SpawnColumn(c: IVec2, d: int, sx: int, origin: IVec2, center: Vec2, radius: real, spawn: IVec2 -> Entity)
      requires -d <= sx <= d
      modifies this
      ensures forall p | p in old(entries) :: p in entries && entries[p] == old(entries)[p]
      ensures forall p | p in entries && p !in old(entries) ::
        p.x == c.x + sx && InSquare(c, d, p) && WithinRadius(origin, p, center, radius) && entries[p] == spawn(p)
      ensures forall p: IVec2 | p.x == c.x + sx && InSquare(c, d, p) && WithinRadius(origin, p, center, radius) :: p in entries
    {
      ghost var e0 := entries;
      var sy := -d;
      while sy <= d
        invariant forall p | p in e0 :: p in entries && entries[p] == e0[p]
        invariant forall p | p in entries && p !in e0 ::
          p.x == c.x + sx && InSquare(c, d, p) && p.y < c.y + sy && WithinRadius(origin, p, center, radius) && entries[p] == spawn(p)
        invariant forall p: IVec2 | p.x == c.x + sx && InSquare(c, d, p) && p.y < c.y + sy && WithinRadius(origin, p, center, radius) :: p in entries
        invariant -d <= sy || d < -d
        decreases d - sy
      {
        var pos := c.Plus(IVec2(sx, sy));
        if WithinRadius(origin, pos, center, radius) && !Contains(pos) {
          Insert(pos, spawn(pos));
        }
        sy := sy + 1;
      }
    }

    /**
     * `spawn_chunks`: a chunk for every position of the square around the
     * spawn centre whose centre is within the radius.  Chunks already
     * present are never replaced, and nothing outside the square or the
     * radius is added.
     */
    method SpawnChunks(origin: IVec2, center: Vec2, radius: real, spawn: IVec2 -> Entity)
      modifies this
      ensures forall p | p in old(entries) :: p in entries && entries[p] == old(entries)[p]
      ensures forall p | p in entries && p !in old(entries) ::
        InSquare(SpawnCenter(origin, center), SpawnReach(radius), p) && WithinRadius(origin, p, center, radius) && entries[p] == spawn(p)
      ensures forall p: IVec2 | InSquare(SpawnCenter(origin, center), SpawnReach(radius), p) && WithinRadius(origin, p, center, radius) :: p in entries
    {
      var c := SpawnCenter(origin, center);
      var d := SpawnReach(radius);
      ghost var e0 := entries;
      var sx := -d;
      while sx <= d
        invariant forall p | p in e0 :: p in entries && entries[p] == e0[p]
        invariant forall p | p in entries && p !in e0 ::
          InSquare(c, d, p) && p.x < c.x + sx && WithinRadius(origin, p, center, radius) && entries[p] == spawn(p)
        invariant forall p: IVec2 | InSquare(c, d, p) && p.x < c.x + sx && WithinRadius(origin, p, center, radius) :: p in entries
        invariant -d <= sx || d < -d
        decreases d - sx
      {
        SpawnColumn(c, d, sx, origin, center, radius, spawn);
        sx := sx + 1;
      }
    }

    /**
     * `despawn_chunks`: the chunks whose centre lies outside the despawn
     * radius are dropped; the others stay.
     */
    method DespawnChunks(origin: IVec2, center: Vec2, radius: real)
      modifies this
      ensures forall p | p in old(entries) :: (p in entries <==> WithinRadius(origin, p, center, radius))
      ensures forall p | p in entries :: p in old(entries) && entries[p] == old(entries)[p]
    {
      Retain((p, _) => WithinRadius(origin, p, center, radius));
    }
  }

  /** The floating-origin state `update_origin` reads and writes. */
  class World {
    var origin: IVec2
    var center: Vec2
    /** Translations of the entities with the `FloatingOrigin` component. */
    var transforms: seq<Vec3>
    /** `WorldOriginChanged` events sent, oldest first. */
    var events: seq<Vec3>

    /** The origin shift `update_origin` computes: the spawn centre rounded to whole chunks. */
    function Shift(): IVec2 reads this {
      IVec2(Round(center.x / ChunkSize), Round(center.y / ChunkSize))
    }

    /** The translation `update_origin` applies for a shift: minus the shift, in world units. */
    static function Translation(shift: IVec2): Vec3 {
      Vec3((-shift.x) as real * ChunkSize, (-shift.y) as real * ChunkSize, 0.0)
    }

    /**
     * `update_origin`: nothing happens when the centre rounds to the origin
     * chunk.  Otherwise the origin moves by the shift, and the centre and
     * every floating object move by the opposite amount in world units;
     * one event carries that translation.  Afterwards the centre lies within
     * half a chunk of the origin.
     */
    method UpdateOrigin()
      modifies this
      ensures old(Shift()) == Zero ==>
        origin == old(origin) && center == old(center) && transforms == old(transforms) && events == old(events)
      ensures old(Shift()) != Zero ==>
        (var t := Translation(old(Shift()));
         origin == old(origin).Plus(old(Shift())) && center == Vec2(old(center).x + t.x, old(center).y + t.y) &&
         |transforms| == old(|transforms|) && (forall k | 0 <= k < |transforms| :: transforms[k] == old(transforms[k]).Add(t)) &&
         events == old(events) + [t])
      ensures old(Shift()) != Zero ==>
        -ChunkSize / 2.0 <= center.x <= ChunkSize / 2.0 && -ChunkSize / 2.0 <= center.y <= ChunkSize / 2.0
    {
      var shift := Shift();
      var newOrigin := origin.Plus(shift);
      if origin == newOrigin {
        return;
      }
      var t := Translation(shift);
      var k := 0;
      ghost var tr0 := transforms;
      while k < |transforms|
        invariant k <= |transforms| == |tr0|
        invariant forall j | 0 <= j < |transforms| :: transforms[j] == if j < k then tr0[j].Add(t) else tr0[j]
        invariant origin == old(origin) && center == old(center) && events == old(events)
      {
        transforms := transforms[k := transforms[k].Add(t)];
        k := k + 1;
      }
      RecenterBound(center.x);
      RecenterBound(center.y);
      center := Vec2(center.x + t.x, center.y + t.y);
      origin := newOrigin;
      events := events + [t];
    }
  }

  /**
   * After `update_origin` the spawn centre lies within half a chunk of the
   * new origin on each axis.
   */
  lemma RecenterBound(c: real)
    ensures -ChunkSize / 2.0 <= c - Round(c / ChunkSize) as real * ChunkSize <= ChunkSize / 2.0
  {
    RoundClose(c / ChunkSize);
  }

  /**
   * Moving the origin by a shift and every floating object by the opposite
   * amount keeps the world consistent: an object placed at a chunk's world
   * position for the old origin lands at its world position for the new one.
   */
  lemma ShiftKeepsChunkPlaces(origin: IVec2, shift: IVec2, chunk: IVec2)
    ensures var t := World.Translation(shift);
      ChunkPosToWorld(origin.Plus(shift), chunk) == Vec2(ChunkPosToWorld(origin, chunk).x + t.x, ChunkPosToWorld(origin, chunk).y + t.y)
  {
  }
}
