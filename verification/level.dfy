/** The tile map of one level (level.py): the generator's grid, the spawn
    and portal points in pixels, the checkpoint points found by scanning the
    grid, and the wall and activation tests the rest of the game asks it. */
module LevelMap {
  import opened Settings
  import opened Wrappers
  import opened Geometry
  import opened Random
  import opened LevelGeneration

  /** The level is 50 by 50 tiles whatever the screen size (level.py:12-13). */
  const LevelWidth: int := 50
  const LevelHeight: int := 50

  /** The top-left pixel of tile (x, y). */
  function TileCorner(x: int, y: int): Vec
  {
    Vec((x * TileSize) as real, (y * TileSize) as real)
  }

  /** The middle pixel of tile (x, y), where enemies are created. */
  function TileMiddle(x: int, y: int): Vec
  {
    Vec((x * TileSize + TileSize / 2) as real, (y * TileSize + TileSize / 2) as real)
  }

  /** `int(v // tile_size)`: Python's `//` floors, also for negative and
      fractional pixel coordinates. */
  function TileOf(v: real): int
  {
    (v / TileSize as real).Floor
  }

  /** Every pixel of the square [64t, 64t + 64) lies in tile t. */
  lemma TileOfSquare(t: int, v: real)
    requires (t * TileSize) as real <= v < ((t + 1) * TileSize) as real
    ensures TileOf(v) == t
  {
  }

  /** A negative pixel coordinate lies in a negative tile. */
  lemma TileOfNegative(v: real)
    requires v < 0.0
    ensures TileOf(v) < 0
  {
  }

  /** The nine points a body of half-size `half` centred at c tests when it
      tries the step d: its centre, its four corners and the middles of its
      four sides, in that order, each moved by d. The player's and the
      enemies' `collide_with_walls` use the same list. */
  function ProbePoints(c: Vec, half: real, d: Vec): (ps: seq<Vec>)
    ensures |ps| == 9 && ps[0] == c.Plus(d)
  {
    var l, r, t, b := c.x - half + d.x, c.x + half + d.x, c.y - half + d.y, c.y + half + d.y;
    var cx, cy := c.x + d.x, c.y + d.y;
    [Vec(cx, cy), Vec(l, t), Vec(r, t), Vec(l, b), Vec(r, b),
     Vec(cx, t), Vec(cx, b), Vec(l, cy), Vec(r, cy)]
  }

  /** The scan order of `generate_level` (rows of y, columns of x within a
      row): the k-th tile visited is (k % width, k / width). */
  function ScanTile(k: int): TilePos
  {
    (k % LevelWidth, k / LevelWidth)
  }

  /** The checkpoint points among the first n tiles of the scan. */
  ghost function Scan(t: array2<int>, n: int): seq<Vec>
    reads t
    requires t.Length0 == LevelWidth && t.Length1 == LevelHeight && 0 <= n <= LevelWidth * LevelHeight
  {
    if n == 0 then []
    else
      var (x, y) := ScanTile(n - 1);
      Scan(t, n - 1) + (if t[x, y] == TileCheckpoint then [TileCorner(x, y)] else [])
  }

  /** The scan reaches tile (x, y) at step y * LevelWidth + x. */
  lemma ScanStep(t: array2<int>, x: int, y: int)
    requires t.Length0 == LevelWidth && t.Length1 == LevelHeight && 0 <= x < LevelWidth && 0 <= y < LevelHeight
    ensures y * LevelWidth + x < LevelWidth * LevelHeight
    ensures Scan(t, y * LevelWidth + x + 1) ==
              Scan(t, y * LevelWidth + x) + (if t[x, y] == TileCheckpoint then [TileCorner(x, y)] else [])
  {
    ScanTileOf(x, y);
  }

  /** Step y * LevelWidth + x of the scan is tile (x, y), inside the grid. */
  lemma ScanTileOf(x: int, y: int)
    requires 0 <= x < LevelWidth && 0 <= y < LevelHeight
    ensures y * LevelWidth + x < LevelWidth * LevelHeight
    ensures ScanTile(y * LevelWidth + x) == (x, y)
  {
    var n := y * 50 + x;
    assert y * 50 <= n < (y + 1) * 50;
    assert n / 50 == y;
    assert n % 50 == x;
  }

  /** A position along the scan: the corner of the k-th tile has rank 64k. */
  function Rank(p: Vec): real
  {
    p.y * LevelWidth as real + p.x
  }

  lemma RankOfCorner(k: int)
    requires k >= 0
    ensures Rank(TileCorner(ScanTile(k).0, ScanTile(k).1)) == (k * TileSize) as real
  {
    var x, y := k % LevelWidth, k / LevelWidth;
    assert k == y * LevelWidth + x;
    assert (y * TileSize) as real * LevelWidth as real == (y * LevelWidth * TileSize) as real;
  }

  /** The scan lists checkpoint points in strictly increasing rank, each
      below the rank of the next tile to visit. */
  lemma {:induction false} ScanAscending(t: array2<int>, n: int)
    requires t.Length0 == LevelWidth && t.Length1 == LevelHeight && 0 <= n <= LevelWidth * LevelHeight
    ensures forall i :: 0 <= i < |Scan(t, n)| ==> Rank(Scan(t, n)[i]) < (n * TileSize) as real
    ensures forall i, j :: 0 <= i < j < |Scan(t, n)| ==> Rank(Scan(t, n)[i]) < Rank(Scan(t, n)[j])
  {
    if n > 0 {
      ScanAscending(t, n - 1);
      RankOfCorner(n - 1);
    }
  }

  /** `checkpoints` has one point per checkpoint tile: the scan has no
      repeated point, holds the corner of every checkpoint tile, and
      nothing else. */
  lemma {:induction false} ScanExact(t: array2<int>, n: int)
    requires t.Length0 == LevelWidth && t.Length1 == LevelHeight && 0 <= n <= LevelWidth * LevelHeight
    ensures forall i, j :: 0 <= i < j < |Scan(t, n)| ==> Scan(t, n)[i] != Scan(t, n)[j]
    ensures forall k :: 0 <= k < n && t[ScanTile(k).0, ScanTile(k).1] == TileCheckpoint ==>
      TileCorner(ScanTile(k).0, ScanTile(k).1) in Scan(t, n)
    ensures forall p :: p in Scan(t, n) ==>
      exists k :: (0 <= k < n && t[ScanTile(k).0, ScanTile(k).1] == TileCheckpoint &&
                   p == TileCorner(ScanTile(k).0, ScanTile(k).1))
  {
    ScanAscending(t, n);
    if n > 0 {
      ScanExact(t, n - 1);
      var s := Scan(t, n - 1);
      assert forall p :: p in s ==> p in Scan(t, n);
      forall p | p in Scan(t, n)
        ensures exists k :: (0 <= k < n && t[ScanTile(k).0, ScanTile(k).1] == TileCheckpoint &&
                             p == TileCorner(ScanTile(k).0, ScanTile(k).1))
      {
        if p !in s {
          assert t[ScanTile(n - 1).0, ScanTile(n - 1).1] == TileCheckpoint;
        }
      }
    }
  }

  /** `distance < radius`, as the source computes it with a square root, is
      the comparison of squares whenever the radius is not negative. */
  lemma LengthBelow(length: real, squared: real, radius: real)
    requires length >= 0.0 && length * length == squared && radius >= 0.0
    ensures length < radius <==> squared < radius * radius
  {
    var gap, sum := radius - length, radius + length;
    assert gap * sum == radius * radius - squared;
    if length < radius {
      assert gap > 0.0 && sum > 0.0;
      assert gap * sum > 0.0;
    } else {
      assert gap <= 0.0 && sum >= 0.0;
      assert gap * sum <= 0.0;
    }
  }

  /** p is strictly within CHECKPOINT_RADIUS of the checkpoint c. */
  predicate NearCheckpoint(p: Vec, c: Vec)
  {
    DistSq(p, c) < CheckpointRadius * CheckpointRadius
  }

  /** The index of the first checkpoint strictly within CHECKPOINT_RADIUS of
      p, or |cps| when there is none. */
  function FirstNear(cps: seq<Vec>, p: Vec): (k: nat)
    ensures k <= |cps|
    ensures forall j :: 0 <= j < k ==> !NearCheckpoint(p, cps[j])
    ensures k < |cps| ==> NearCheckpoint(p, cps[k])
  {
    if cps == [] then 0
    else if NearCheckpoint(p, cps[0]) then 0
    else 1 + FirstNear(cps[1..], p)
  }

  class Level {
    const levelNumber: int
    const width: int := LevelWidth
    const height: int := LevelHeight
    /** `tiles[x][y]`, the generator's grid. */
    var tiles: array2<int>
    var playerPos: Vec
    var portalPos: Option<Vec>
    var checkpoints: seq<Vec>
    var activeCheckpoint: Option<Vec>
    /** The points `generate_level` hands to `game.create_enemy`, in order. */
    var enemySpawns: seq<Vec>
    /** What the generator left behind: the rooms, the tiles it chose and
        the facts about them. */
    ghost var plan: LevelPlan

    ghost predicate Valid()
      reads this`tiles
    {
      tiles.Length0 == width && tiles.Length1 == height
    }

    /** `is_wall_at`: the tile under the pixel is a wall; everything off
        the grid counts as wall. */
    predicate IsWallAt(x: real, y: real)
      reads this`tiles, tiles
      requires Valid()
    {
      var tx, ty := TileOf(x), TileOf(y);
      if 0 <= tx < width && 0 <= ty < height then tiles[tx, ty] == TileWall else true
    }

    /** Off the grid, including left of or above the origin, is wall. */
    lemma OutsideIsWall(x: real, y: real)
      requires Valid()
      requires x < 0.0 || y < 0.0 || x >= (width * TileSize) as real || y >= (height * TileSize) as real
      ensures IsWallAt(x, y)
    {
      if x < 0.0 { TileOfNegative(x); }
      if y < 0.0 { TileOfNegative(y); }
      if x >= (width * TileSize) as real { assert TileOf(x) >= width; }
      if y >= (height * TileSize) as real { assert TileOf(y) >= height; }
    }

    /** On the grid, every pixel of a tile answers as the tile does: only
        wall tiles block, so floor, checkpoint and portal tiles are open. */
    lemma WallIffWallTile(tx: int, ty: int, x: real, y: real)
      requires Valid() && 0 <= tx < width && 0 <= ty < height
      requires (tx * TileSize) as real <= x < ((tx + 1) * TileSize) as real
      requires (ty * TileSize) as real <= y < ((ty + 1) * TileSize) as real
      ensures IsWallAt(x, y) <==> tiles[tx, ty] == TileWall
    {
      TileOfSquare(tx, x);
      TileOfSquare(ty, y);
    }

    /** Some of the points lies on a wall (or off the grid). */
    predicate WallAmong(points: seq<Vec>)
      reads this`tiles, tiles
      requires Valid()
    {
      exists i :: 0 <= i < |points| && IsWallAt(points[i].x, points[i].y)
    }

    /** The loop of `collide_with_walls`: the first point on a wall ends the
        search. */
    method FindWall(points: seq<Vec>) returns (hit: bool)
      requires Valid()
      ensures hit <==> WallAmong(points)
    {
      for i := 0 to |points|
        invariant forall j :: 0 <= j < i ==> !IsWallAt(points[j].x, points[j].y)
      {
        if IsWallAt(points[i].x, points[i].y) {
          return true;
        }
      }
      return false;
    }

    /** A body whose probe finds no wall lies wholly on the grid: its box,
        moved by d, is inside the 50 by 50 tiles. */
    lemma ClearProbeOnGrid(c: Vec, half: real, d: Vec)
      requires Valid() && !WallAmong(ProbePoints(c, half, d))
      ensures 0.0 <= c.x - half + d.x && c.x + half + d.x < (width * TileSize) as real
      ensures 0.0 <= c.y - half + d.y && c.y + half + d.y < (height * TileSize) as real
    {
      var ps := ProbePoints(c, half, d);
      if !(0.0 <= ps[1].x && ps[1].x < (width * TileSize) as real && 0.0 <= ps[1].y && ps[1].y < (height * TileSize) as real) {
        OutsideIsWall(ps[1].x, ps[1].y);
        assert false;
      }
      if !(0.0 <= ps[4].x && ps[4].x < (width * TileSize) as real && 0.0 <= ps[4].y && ps[4].y < (height * TileSize) as real) {
        OutsideIsWall(ps[4].x, ps[4].y);
        assert false;
      }
    }

    /** `check_portal_collision`: the portal is set and p is strictly within
        PORTAL_ACTIVATION_RADIUS of it. */
    predicate PortalReached(p: Vec)
      reads this`portalPos
    {
      portalPos.Some? && DistSq(p, portalPos.value) < PortalActivationRadius * PortalActivationRadius
    }

    /** Standing on the portal point always activates it, and nothing
        activates it before it is set. */
    lemma PortalReachedAtPortal(p: Vec)
      ensures portalPos.Some? && p == portalPos.value ==> PortalReached(p)
      ensures portalPos.None? ==> !PortalReached(p)
    {
    }

    /** `Level(game, level_number)`: the grid is generated on construction. */
    constructor (levelNumber: int, rng: Rng)
      modifies rng
      ensures this.levelNumber == levelNumber && Valid() && fresh(tiles)
      ensures activeCheckpoint == None
      ensures LaidOut(tiles, plan, levelNumber)
      ensures playerPos == TileCorner(plan.spawn.0, plan.spawn.1) && !IsWallAt(playerPos.x, playerPos.y)
      ensures portalPos == Some(TileCorner(plan.portal.0, plan.portal.1))
      ensures !IsWallAt(portalPos.value.x, portalPos.value.y)
      ensures checkpoints == Scan(tiles, width * height)
      ensures |enemySpawns| == |plan.enemies|
      ensures forall k :: 0 <= k < |enemySpawns| ==>
        enemySpawns[k] == TileMiddle(plan.enemies[k].0, plan.enemies[k].1) && !IsWallAt(enemySpawns[k].x, enemySpawns[k].y)
    {
      this.levelNumber := levelNumber;
      activeCheckpoint := None;
      new;
      GenerateLevel(rng);
    }

    /** `generate_level`: the generator's grid becomes the level's, with the
        layout `generate` promises; the spawn and portal tiles become their
        corner pixels, the enemy tiles their middle pixels, in order; the
        checkpoints are found by scanning the grid row by row. The spawn,
        the portal and every enemy start on open tiles. */
    method GenerateLevel(rng: Rng)
      modifies this`tiles, this`playerPos, this`portalPos, this`checkpoints, this`enemySpawns, rng
      modifies this`plan
      ensures Valid() && fresh(tiles)
      ensures LaidOut(tiles, plan, levelNumber)
      ensures playerPos == TileCorner(plan.spawn.0, plan.spawn.1) && !IsWallAt(playerPos.x, playerPos.y)
      ensures portalPos == Some(TileCorner(plan.portal.0, plan.portal.1))
      ensures !IsWallAt(portalPos.value.x, portalPos.value.y)
      ensures checkpoints == Scan(tiles, width * height)
      ensures |enemySpawns| == |plan.enemies|
      ensures forall k :: 0 <= k < |enemySpawns| ==>
        enemySpawns[k] == TileMiddle(plan.enemies[k].0, plan.enemies[k].1) && !IsWallAt(enemySpawns[k].x, enemySpawns[k].y)
    {
      var spawn, portal, enemies;
      tiles, spawn, portal, enemies, plan := GenerateFor(width, height, levelNumber, rng);
      Place(spawn, portal, enemies);
    }

    /** The rest of `generate_level`, on the generated grid: the spawn and
        portal tiles become their corner pixels, the enemy tiles their
        middle pixels, and the checkpoints are scanned. */
    method Place(spawn: TilePos, portal: TilePos, enemies: seq<TilePos>)
      requires Valid() && OnTiles(tiles, spawn) && tiles[spawn.0, spawn.1] != TileWall
      requires OnTiles(tiles, portal) && tiles[portal.0, portal.1] != TileWall
      requires forall k :: 0 <= k < |enemies| ==>
                 OnTiles(tiles, enemies[k]) && tiles[enemies[k].0, enemies[k].1] != TileWall
      modifies this`playerPos, this`portalPos, this`checkpoints, this`enemySpawns
      ensures playerPos == TileCorner(spawn.0, spawn.1) && !IsWallAt(playerPos.x, playerPos.y)
      ensures portalPos == Some(TileCorner(portal.0, portal.1))
      ensures !IsWallAt(portalPos.value.x, portalPos.value.y)
      ensures checkpoints == Scan(tiles, width * height)
      ensures |enemySpawns| == |enemies|
      ensures forall k :: 0 <= k < |enemySpawns| ==>
        enemySpawns[k] == TileMiddle(enemies[k].0, enemies[k].1) && !IsWallAt(enemySpawns[k].x, enemySpawns[k].y)
    {
      var (sx, sy) := spawn;
      var (px, py) := portal;
      playerPos := TileCorner(sx, sy);
      portalPos := Some(TileCorner(px, py));
      WallIffWallTile(sx, sy, playerPos.x, playerPos.y);
      WallIffWallTile(px, py, portalPos.value.x, portalPos.value.y);
      SpawnEnemies(enemies);
      ScanCheckpoints();
    }

    /** The enemy loop of `generate_level`: every enemy tile becomes the
        middle pixel of that tile, in order, so each spawn is open ground. */
    method SpawnEnemies(positions: seq<TilePos>)
      requires Valid()
      requires forall k :: 0 <= k < |positions| ==>
                 0 <= positions[k].0 < width && 0 <= positions[k].1 < height &&
                 tiles[positions[k].0, positions[k].1] != TileWall
      modifies this`enemySpawns
      ensures |enemySpawns| == |positions|
      ensures forall k :: 0 <= k < |positions| ==> enemySpawns[k] == TileMiddle(positions[k].0, positions[k].1)
      ensures forall k :: 0 <= k < |enemySpawns| ==> !IsWallAt(enemySpawns[k].x, enemySpawns[k].y)
    {
      enemySpawns := [];
      for k := 0 to |positions|
        invariant |enemySpawns| == k
        invariant forall j :: 0 <= j < k ==> enemySpawns[j] == TileMiddle(positions[j].0, positions[j].1)
        invariant forall j :: 0 <= j < k ==> !IsWallAt(enemySpawns[j].x, enemySpawns[j].y)
      {
        var (ex, ey) := positions[k];
        var enemyPos := TileMiddle(ex, ey);
        WallIffWallTile(ex, ey, enemyPos.x, enemyPos.y);
        enemySpawns := enemySpawns + [enemyPos];
      }
    }

    /** The checkpoint loop of `generate_level` (level.py:36-40). */
    method ScanCheckpoints()
      requires Valid()
      modifies this`checkpoints
      ensures checkpoints == Scan(tiles, width * height)
    {
      checkpoints := [];
      for y := 0 to height
        invariant checkpoints == Scan(tiles, y * width)
      {
        ScanRow(y);
      }
    }

    /** One row of the scan, left to right. */
    method ScanRow(y: int)
      requires Valid() && 0 <= y < height && checkpoints == Scan(tiles, y * width)
      modifies this`checkpoints
      ensures checkpoints == Scan(tiles, (y + 1) * width)
    {
      for x := 0 to width
        invariant checkpoints == Scan(tiles, y * width + x)
      {
        ScanStep(tiles, x, y);
        if tiles[x, y] == TileCheckpoint {
          checkpoints := checkpoints + [TileCorner(x, y)];
        }
      }
      assert y * width + width == (y + 1) * width;
    }

    /** `check_checkpoint_collision`: the first checkpoint within reach, if
        any, becomes the active one. */
    method CheckCheckpointCollision(p: Vec) returns (hit: bool)
      modifies this`activeCheckpoint
      ensures hit <==> FirstNear(checkpoints, p) < |checkpoints|
      ensures hit ==> activeCheckpoint == Some(checkpoints[FirstNear(checkpoints, p)])
      ensures !hit ==> activeCheckpoint == old(activeCheckpoint)
    {
      for k := 0 to |checkpoints|
        invariant forall j :: 0 <= j < k ==> !NearCheckpoint(p, checkpoints[j])
        invariant FirstNear(checkpoints, p) >= k
      {
        if NearCheckpoint(p, checkpoints[k]) {
          FirstNearIs(checkpoints, p, k);
          activeCheckpoint := Some(checkpoints[k]);
          hit := true;
          return;
        }
      }
      hit := false;
    }
  }

  /** Some checkpoint is near exactly when FirstNear finds one. */
  lemma FirstNearFinds(cps: seq<Vec>, p: Vec)
    ensures FirstNear(cps, p) < |cps| <==> exists k :: 0 <= k < |cps| && NearCheckpoint(p, cps[k])
  {
    var f := FirstNear(cps, p);
    if f == |cps| {
      assert forall k :: 0 <= k < |cps| ==> !NearCheckpoint(p, cps[k]);
    }
  }

  /** FirstNear is the first index whose point is near. */
  lemma {:induction false} FirstNearIs(cps: seq<Vec>, p: Vec, k: int)
    requires 0 <= k < |cps| && NearCheckpoint(p, cps[k])
    requires forall j :: 0 <= j < k ==> !NearCheckpoint(p, cps[j])
    ensures FirstNear(cps, p) == k
  {
    if k > 0 {
      FirstNearIs(cps[1..], p, k - 1);
    }
  }
}
