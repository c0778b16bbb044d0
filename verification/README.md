# Dungeon simulation core, modelled and proved in Dafny

This project models the simulation logic of a top-down pygame dungeon crawler
and proves properties of it:

- the procedural level generator, which places rooms on a 4×3 grid, carves them,
  joins them with L-shaped corridors, stamps checkpoint and portal tiles, and
  places enemies by rejection sampling;
- the tile map built from the generator's output, with its wall queries and its
  checkpoint and portal activation radii;
- the enemy state machine and its combat bookkeeping;
- the player's experience, damage, death and respawn, dash and attack
  cooldowns, and move resolution;
- the magic weapons: the mana/cooldown gate, heal, the lightning chain and
  projectile flight;
- the game's orchestration: projectile hits, the checkpoint and portal branch
  of a frame, and the level transition.

Each source file is one module:

| module | file | form |
|---|---|---|
| `LevelGeneration` | level_generator.py | `LevelGenerator` class over an `array2<int>` tile grid; `Room` is a datatype |
| `LevelMap` | level.py | `Level` class |
| `Enemies` | enemy.py | `Enemy` class; the sprite groups are the `Groups` class |
| `Players` | player.py | `Player` class |
| `Weapons` | weapons.py | `Weapon` and `Projectile` classes |
| `GameLoop` | game.py | `Game` class |

`Settings` holds the constants of settings.py. It takes the later integer tile
codes (`TILE_FLOOR = 0` … `TILE_PORTAL = 3`), which override the earlier string
codes. `Geometry` holds a real 2-D vector. `Random` is an `Rng` class that
stands for Python's `random` module: its methods promise only what
`randint`, `random` and `sample` promise, which are the range, the length and
distinctness. `Wrappers` holds `Option`, `Without` and `Distinct`. `Without` is
a sprite's `kill()` on a group kept as a sequence, and `Distinct` says that the
group holds each sprite once, as a pygame group does.

Time is an explicit `now: int` in milliseconds, in place of
`pygame.time.get_ticks()`. Pixel positions are exact `real`s. Distances are
compared on their squares. Tile arithmetic is on unbounded `int`s, which
cannot overflow at these sizes.

The model follows the code where the code and its documentation differ:

- the level is 50×50 tiles, not `MAP_WIDTH × MAP_HEIGHT`;
- every enemy archetype starts at `ENEMY_HP` whatever its own maximum;
- `update_state` uses the global attack range, not the archetype's;
- level-up does not refill mana;
- the first enemy a lightning chain hits already takes `damage·0.8`.

`player.current_mana` and `player.weapons` are used by the source but never
defined in it. They are plain fields here: `Player.currentMana` and
`Game.weapons`. The player's constructor in player.py never sets a mana value.
Starting `currentMana` at `PLAYER_START_MANA` (100, settings.py:21) is this
model's choice; nothing in the source makes it.

`game.projectiles` is never defined either, and nothing here stands for it:
the ranged enemy's attack, which adds its projectile there, raises
`AttributeError` (`RaisedAttributeError`).

Some enemy code is modelled although the game never reaches it. The game
creates only melee enemies (`Enemy = MeleeEnemy`). An enemy starts wandering,
and afterwards only flee, attack, chase and wander are ever assigned, so
`idle_state` and `patrol_state` never run. `apply_stun` has no caller, so
`stunned_state` never runs either. The ranged archetype's attack is unreachable
for the same reason.

A fireball or ice lance flies along its aim normalised: a unit vector, or the
zero vector when the aim is on the caster's own centre. Each update adds
`movement.length()` to the distance flown, and the update that reaches the range
removes the projectile. Along a unit direction that is the 50th update for a
fireball and the 25th for an ice lance (`FlightLength`). A projectile with the
zero direction never moves, so no update ever removes it (`Stranded`).

## Model

| member | source | states |
|---|---|---|
| LevelGeneration.IntersectsSymmetric | level_generator.py:15-19 | Room overlap with margin d is symmetric, for every d |
| LevelGeneration.SeparatedRoomsShareNoTile | level_generator.py:15-19 | two rooms that do not intersect with a margin d ≥ 0 share no tile |
| LevelGeneration.CentreInRoom | level_generator.py:11 | the centre `(x + w//2, y + h//2)` of a non-empty room lies inside the room |
| LevelGeneration.RandomPosition | level_generator.py:21-27 | the sampled point is at least one tile in from every side of the room, so it passes the strict-interior test of line 214 |
| LevelGeneration.PaddedIsStrictlyInside | level_generator.py:24-26 | a point in the padded range is strictly inside the room |
| LevelGeneration.GridPositionsAreTheCells | level_generator.py:80-83 | the grid list holds exactly the 12 cells (row < 3, col < 4) |
| LevelGeneration.GridPositionsDistinct | level_generator.py:80-83 | the grid list has no repeated cell |
| LevelGeneration.SortRowMajor | level_generator.py:89 | the sorted selection is strictly row-major ordered and holds the same cells, with the same length |
| LevelGeneration.DrawRoom | level_generator.py:93-110 | the drawn room lies in its cell with a margin of at least 2 tiles and is not yet connected |
| LevelGeneration.RoomInCellFits | level_generator.py:76-108 | on a grid whose cells are at least 7 tiles, a room drawn in a cell lies on the map and is at least 3×3 |
| LevelGeneration.RoomsInDistinctCellsSeparated | level_generator.py:102-108 | rooms drawn in two different cells do not intersect with margin `MIN_ROOM_DISTANCE` |
| LevelGeneration.LayoutSeparated | level_generator.py:91-112 | rooms drawn in row-major ordered cells are pairwise separated by `MIN_ROOM_DISTANCE` |
| LevelGeneration.CentreLineInPath | level_generator.py:146-163 | a tile on the centre line of an L-shaped corridor is inside that corridor |
| LevelGeneration.OnPathsAppend | level_generator.py:126-141 | after one more pair is joined, the floor dug is the earlier floor plus that pair's L-path |
| LevelGeneration.CentreLinesOnPaths | level_generator.py:126-163 | every tile on the centre lines between consecutive room centres is dug by some corridor |
| LevelGeneration.MarkConnectedStep | level_generator.py:143-144 | joining pair i marks rooms i and i+1 connected and nothing else |
| LevelGeneration.MarkConnectedCentres | level_generator.py:143-144 | marking rooms connected moves no room and changes no centre |
| LevelGeneration.EnemyCountBounds | level_generator.py:232-233 | min enemies ≥ 1, max enemies ≥ 2, min ≤ max, and both bounds never fall as the level number rises |
| LevelGeneration.RootCompare | level_generator.py:199-211 | `sqrt(d²) < k` iff `d² < k²`, so the distance tests are exact on squared integers |
| LevelGeneration.LevelGenerator.constructor | level_generator.py:30-39 | a width×height grid of walls, and no rooms, checkpoints, enemies, portal or spawn |
| LevelGeneration.LevelGenerator.CarveRoom | level_generator.py:118-122 | exactly the room's tiles become floor; every other tile is unchanged |
| LevelGeneration.LevelGenerator.CreateCorridor | level_generator.py:146-163 | exactly the in-bounds tiles of the two 3-wide legs become floor; every other tile is unchanged |
| LevelGeneration.LevelGenerator.AddRoom | level_generator.py:110-112 | the room is appended and carved; the floor becomes the old floor plus the room |
| LevelGeneration.LevelGenerator.SelectCells | level_generator.py:80-89 | `min(ROOMS_PER_LEVEL, 12)` grid cells, in strictly row-major order |
| LevelGeneration.LevelGenerator.PlaceRoomAt | level_generator.py:91-116 | one loop step keeps the placement invariant: rooms in their cells, separated, carved, spawn at the first centre |
| LevelGeneration.LevelGenerator.PlaceRooms | level_generator.py:69-116 | `min(ROOMS_PER_LEVEL, 12)` unconnected rooms in row-major cell order, pairwise separated; spawn is the first room's centre; the tiles are floor exactly inside the rooms |
| LevelGeneration.LevelGenerator.DigPath | level_generator.py:133-141 | one L-shaped path is dug, horizontal-first or vertical-first, and earlier corridors stay dug |
| LevelGeneration.LevelGenerator.ConnectPair | level_generator.py:126-144 | room pair i is joined and marked connected |
| LevelGeneration.LevelGenerator.ConnectRooms | level_generator.py:124-144 | no room moves; with two or more rooms all are connected; the tiles are floor exactly on the dug paths |
| LevelGeneration.LevelGenerator.PlaceCheckpoints | level_generator.py:165-176 | `CheckpointCount` checkpoints, in distinct rooms other than the first and last, each inside the padded room and stamped `TILE_CHECKPOINT`; no other tile changes |
| LevelGeneration.LevelGenerator.PlacePortal | level_generator.py:178-183 | with rooms, the portal is the last room's centre and only that tile becomes `TILE_PORTAL`; with none, nothing changes |
| LevelGeneration.LevelGenerator.IsValidEnemyPosition | level_generator.py:185-217 | the answer is the validity rule: in bounds, on floor, far enough from earlier enemies and, for the first two rooms, from spawn, and strictly inside the room |
| LevelGeneration.LevelGenerator.PlacedWellAppend | level_generator.py:245-247 | appending a position that passed the test keeps every accepted position valid |
| LevelGeneration.LevelGenerator.TryPlace | level_generator.py:242-247 | the position is appended iff it is valid |
| LevelGeneration.LevelGenerator.FillRoom | level_generator.py:238-249 | placed ≤ planned count, placed ≤ attempts ≤ 50, and either the plan is met or 50 attempts were made |
| LevelGeneration.LevelGenerator.PlaceEnemies | level_generator.py:219-250 | every accepted position stays valid for its room; the rooms are visited in order; one planned count and attempt tally per middle room, within the level's bounds |
| LevelGeneration.LevelGenerator.PlacedWellMeans | level_generator.py:185-217 | every enemy position is on the map, on floor, strictly inside a middle room, at squared distance ≥ `MIN_ENEMY_DISTANCE²` from every other, and, in the first two middle rooms, at squared distance ≥ `MIN_ENEMY_DISTANCE_FROM_PLAYER²` from spawn |
| LevelGeneration.LevelGenerator.PlacedWellFarFromSpawn | level_generator.py:205-211 | every enemy placed in the first two middle rooms is at squared distance ≥ `MIN_ENEMY_DISTANCE_FROM_PLAYER²` from spawn |
| LevelGeneration.LevelGenerator.LayOut | level_generator.py:49-53 | eight connected, pairwise separated rooms; the spawn tile is floor; every corridor centre-line tile is floor |
| LevelGeneration.LevelGenerator.Mark | level_generator.py:56-59 | new checkpoints are on the map on `TILE_CHECKPOINT` tiles; the portal is the last centre on a `TILE_PORTAL` tile; no walkable tile becomes wall |
| LevelGeneration.LevelGenerator.Build | level_generator.py:43-59 | rooms, corridors, checkpoints and portal together: spawn and corridors walkable, portal stamped |
| LevelGeneration.LevelGenerator.Generate | level_generator.py:41-67 | the returned spawn, enemies and portal are the generator's fields, and the whole level's promises hold: eight connected, pairwise separated rooms; spawn the first centre, walkable; portal the last centre, stamped; corridor centre lines walkable; enemies on floor strictly inside middle rooms, room by room, pairwise separated and far from spawn in the first two; each middle room's planned count within the level's bounds, with its attempt tally |
| LevelGeneration.LevelGenerator.Populate | level_generator.py:62-63 | the enemies placed meet every enemy promise of the level: on floor, strictly inside their middle room, in room order, pairwise separated, far from spawn in the first two rooms, and tallied per room |
| LevelGeneration.GenerateFor | level.py:22-23 | a fresh width×height grid with the spawn, portal and enemies of a plan for which every promise of the generated level holds |
| LevelMap.TileOfSquare | level.py:44-45 | floor division by the tile size maps every pixel of a tile to that tile |
| LevelMap.TileOfNegative | level.py:44-45 | a negative pixel coordinate floors to a negative tile |
| LevelMap.ScanStep | level.py:37-40 | the row-major scan over one more tile appends that tile's corner iff it is a checkpoint |
| LevelMap.ScanAscending | level.py:37-40 | the scan lists checkpoints in strictly increasing row-major order |
| LevelMap.ScanExact | level.py:36-40 | the scan has no repeats and holds exactly the corner of every `TILE_CHECKPOINT` tile |
| LevelMap.LengthBelow | level.py:56 | `|v| < r` iff `|v|² < r²` |
| LevelMap.FirstNear | level.py:55-59 | the index of the first checkpoint within `CHECKPOINT_RADIUS` of p, or the length if none is |
| LevelMap.FirstNearFinds | level.py:51-59 | some checkpoint is near p iff `FirstNear` is a valid index |
| LevelMap.FirstNearIs | level.py:55-58 | the first near checkpoint in list order is the one `FirstNear` names |
| LevelMap.Level.OutsideIsWall | level.py:42-49 | every point off the map, negative coordinates included, is a wall |
| LevelMap.Level.WallIffWallTile | level.py:47-48 | on the map, a point is a wall iff its tile is `TILE_WALL`, so checkpoint and portal tiles are walkable |
| LevelMap.Level.FindWall | player.py:147-150 | the loop reports a wall iff one of the points is a wall |
| LevelMap.Level.ClearProbeOnGrid | enemy.py:113-131 | a box whose nine probe points are clear lies wholly on the map |
| LevelMap.Level.PortalReachedAtPortal | level.py:61-69 | standing on the portal reaches it; with no portal nothing does |
| LevelMap.Level.constructor | level.py:8-18 | a fresh valid level with no active checkpoint, whose tiles meet every promise of the generator; the player position and portal are the corners of the generator's spawn and portal tiles, each enemy spawn the centre of its enemy tile, all walkable; the checkpoints are the scan of the tiles |
| LevelMap.Level.GenerateLevel | level.py:20-40 | the tiles meet every promise of the generator; spawn and portal become the corners of the generator's tiles, the enemies the centres of theirs, all walkable; the checkpoints are the full scan |
| LevelMap.Level.Place | level.py:25-40 | spawn and portal tiles become tile corners (`x·TILESIZE`), enemy tiles tile centres (`x·TILESIZE + TILESIZE//2`), each walkable; the checkpoints become the full scan |
| LevelMap.Level.SpawnEnemies | level.py:29-33 | one spawn point per enemy tile, at the tile's centre, and each walkable |
| LevelMap.Level.ScanCheckpoints | level.py:35-40 | the checkpoint list becomes the scan of the whole map |
| LevelMap.Level.ScanRow | level.py:38-40 | one row of the scan extends the list by that row's checkpoints |
| LevelMap.Level.CheckCheckpointCollision | level.py:51-59 | true iff some checkpoint is strictly within the radius; then the active checkpoint is the first such one, otherwise it is unchanged |
| Players.NextThreshold | player.py:297 | the next threshold is `floor(1.5·t)`: never below t |
| Players.Climb | player.py:289-290 | the level-up loop ends with xp below the threshold, never lowers level or threshold, and does nothing when xp is already below |
| Players.ClimbStep | player.py:289-297 | the loop is one level-up followed by the rest of the loop |
| Players.Gain | player.py:286-290 | after `gain_xp`, xp is below the threshold and level and threshold have not fallen |
| Players.GainExample | player.py:286-297 | from xp 0 and threshold 100, gaining 250 gives level+2, xp 0 and threshold 225 |
| Players.ClimbMonotone | player.py:286-297 | more xp never ends at a lower level |
| Players.ClimbThenGain | player.py:286-290 | levelling up before a gain does not change the result of the gain |
| Players.GainAdditive | player.py:286-290 | two gains equal one gain of the sum |
| Players.Rewards | game.py:96-97 | k kill rewards keep a positive threshold and never lower the level |
| Players.RewardsAreOneGain | player.py:286-290 | k kill rewards equal one gain of `k·ENEMY_XP_REWARD` |
| Players.RewardsCompose | player.py:286-290 | a rewards then b rewards equal a+b rewards |
| Players.FirstOpenAt | player.py:365-373 | the index of the first clear offset in probe order, or the length |
| Players.FirstOpenAtIs | player.py:365-373 | the first clear offset in probe order is the one `FirstOpenAt` names |
| Players.GridAt | player.py:365-366 | the k-th probe offset is x-major over `range(-128, 128, 32)²` |
| Players.RespawnAtPair | player.py:365-371 | the respawn point is the first clear (x, y) offset pair in x-major order |
| Players.RespawnPointOpen | player.py:361-375 | the respawn point is walkable when the spawn or some offset is; otherwise it is the walled spawn |
| Players.BlockedIsClearAfter | player.py:171-172 | a step is blocked iff the box after the step is not clear |
| Players.ResolveKeepsClear | player.py:169-191 | a move takes no step, the diagonal, x alone or y alone, and a player clear of walls and enemies stays clear |
| Players.ClearOnGrid | player.py:132-150 | a clear player box lies wholly on the map |
| Players.DecayShrinks | player.py:162-167 | knockback either vanishes or keeps its direction at 0.8 of its length, and its squared length shrinks to at most 0.64 of before |
| Players.FadeShrinks | player.py:162-167 | knockback never grows, and zero stays zero |
| Players.Player.constructor | player.py:6-53 | the initial hp, level, xp, threshold, invulnerability duration and flags, at the screen centre; the initial mana `PLAYER_START_MANA` is the model's own choice (player.py sets none) |
| Players.Player.LevelUp | player.py:292-297 | level+1, xp minus the old threshold, threshold `floor(1.5·old)` ≥ old; mana untouched |
| Players.Player.GainXp | player.py:286-290 | the new standing is `Gain` of the old one, and xp ends below the threshold |
| Players.Player.ApplyKnockback | player.py:388-390 | knockback = direction·force |
| Players.Player.Die | player.py:345-354 | dead, death time now; attack, dash, knockback and both velocities cleared |
| Players.Player.TakeDamage | player.py:333-343 | applies iff not invulnerable and alive; then hp is lowered but not below 0, invulnerable from now, dead iff hp reached 0; a player that survives keeps its attack, dash, knockback, death time and velocities; otherwise nothing changes |
| Players.Player.Respawn | player.py:356-379 | alive at full hp, at `RespawnPoint` of the spawn, invulnerable from now for 2000 ms |
| Players.Player.FindSpawnSpot | player.py:361-373 | the nested probe loops return `RespawnPoint` |
| Players.Player.SearchColumn | player.py:366-373 | one inner loop finds the first clear offset of its column, or reports the column blocked |
| Players.Player.CheckRespawn | player.py:381-386 | respawns iff dead and the delay has passed; otherwise nothing changes |
| Players.Player.UpdateInvulnerability | player.py:392-397 | stays invulnerable iff it was and the duration has not run out |
| Players.Player.TryDash | player.py:89-100 | starts a dash iff the cooldown passed and the intent is non-zero, stamping both times; otherwise nothing changes |
| Players.Player.UpdateDash | player.py:102-112 | ends the dash once its duration has passed, else drives the velocity with the dash direction |
| Players.Player.Attack | player.py:207-215 | starts an attack iff the cooldown passed; otherwise nothing changes |
| Players.Player.CollideWithEnemies | player.py:114-130 | true iff some live enemy's centre is closer than the sum of the radii |
| Players.Player.CollideWithWalls | player.py:132-150 | true iff one of the nine probe points is a wall |
| Players.Player.Free | player.py:171-172 | a step is free iff it hits neither an enemy nor a wall |
| Players.Player.Move | player.py:152-194 | the dash update, then the knockback fades and the position is `Resolve` of the velocity plus knockback |
| Players.Player.Drift | player.py:158-194 | the knockback fades and the position is `Resolve` of the pushed velocity |
| Players.Player.Step | player.py:169-191 | the position becomes `Resolve` of the step |
| Enemies.StatsOf | enemy.py:578-609 | every archetype's hp, speed, range and damage are positive |
| Enemies.FreshHealth | enemy.py:578-609 | every archetype starts at `ENEMY_HP`: a ranged enemy at 1.25 of its maximum, a tank at half; none starts fleeing |
| Enemies.ChooseStateRange | enemy.py:93-107 | the rule picks only flee, attack, chase or wander, and flees iff the hp fraction ≤ 0.3 |
| Enemies.CloserIsMoreEngaged | enemy.py:93-107 | for a healthy enemy, a nearer player never gets a less engaged state |
| Enemies.RangedAttackBand | enemy.py:93-107 | for every healthy enemy and every distance from 0.8·80 to 80 px, where a ranged enemy's `chase_state` attacks, `update_state` picks chase |
| Enemies.Enemy.constructor | enemy.py:7-51 | the archetype's stats, `ENEMY_HP`, alive, wandering, at its spawn point |
| Enemies.Enemy.UpdateState | enemy.py:85-107 | within 100 ms nothing changes; after that the state is the priority rule's and the stamp is now |
| Enemies.Enemy.TakeDamage | enemy.py:408-419 | killed iff hp − amount ≤ 0; hp is clamped at 0; a killed enemy is dead and removed from the roster; an already-dead enemy is killed again |
| Enemies.Enemy.ApplyStun | enemy.py:529-532 | stunned until now + duration |
| Enemies.Enemy.IdleState | enemy.py:491-494 | chases iff the player is within aggro range |
| Enemies.Enemy.PatrolState | enemy.py:496-509 | the patrol points are generated once; an empty list raises IndexError and a zero-length step raises ValueError; otherwise the index advances at a reached point and the enemy chases within aggro range |
| Enemies.Enemy.ChaseState | enemy.py:534-544 | switches to attack iff 0.8·range ≤ distance ≤ range |
| Enemies.Enemy.FleeState | enemy.py:557-576 | returns to chase iff the hp fraction exceeds `ENEMY_FLEE_HP_THRESHOLD * 1.5`, the double 0.44999999999999996, so a fraction of exactly 0.45 returns to chase |
| Enemies.Enemy.StunnedState | enemy.py:511-516 | velocity zero; chases again once now ≥ stun end |
| Enemies.Enemy.TryAttack | enemy.py:398-406 | acts iff attacking and the cooldown passed, stamping the time; melee damages the player and knocks it back only when the damage applied, a kill clears the attack, dash and velocities and stamps the death, and a player that survives keeps them; only those player fields can change; the ranged override raises after stamping and leaves the player as it was |
| Enemies.Enemy.AttackState | enemy.py:546-555 | beyond 1.2·range it chases and does not attack; otherwise it tries to attack, and raises exactly when a ranged enemy's attack fires |
| Enemies.Enemy.CollideWithWalls | enemy.py:113-131 | true iff one of the nine probe points is a wall |
| Enemies.Enemy.CollideWithEnemies | enemy.py:470-489 | false without a game; otherwise true iff another live enemy is strictly closer than the sum of the radii |
| Enemies.Enemy.WanderTarget | enemy.py:370-376 | the first candidate that is not a wall, else the current position |
| Enemies.FirstClear | enemy.py:370-376 | the index of the first candidate that is not a wall, or the length |
| Enemies.FirstClearIs | enemy.py:370-376 | the first non-wall candidate is the one `FirstClear` names |
| Enemies.WanderTargetOpen | enemy.py:370-376 | if some candidate is clear, the target is walkable and within the wander radius; otherwise it is the fallback |
| Weapons.HealCapped | weapons.py:277-281 | heal never exceeds max hp, never lowers hp at or below max, and adds 60 or caps |
| Weapons.ChainDamageOfSpell | weapons.py:110 | the k-th hit deals `damage·0.8^k` |
| Weapons.ChainDamageDecays | weapons.py:110 | each hop deals 0.8 of the previous one: 48, 38.4 and 30.72 for the three hits |
| Weapons.DeclineBelow | weapons.py:110 | even the first hit is reduced |
| Weapons.Closest | weapons.py:74-85 | None iff no enemy outside the hit set is within reach; otherwise a nearest one, and the first in roster order among equally near |
| Weapons.NearestInSnapshot | weapons.py:74-85 | a nearest target in the shrunken roster is nearest in the cast-time roster too |
| Weapons.NoneInSnapshot | weapons.py:74-85 | no target in the shrunken roster means none in the cast-time roster |
| Weapons.FirstInSnapshot | weapons.py:78-83 | the first of the nearest in the shrunken roster, which keeps the cast-time order, is the first of the nearest in the cast-time roster too |
| Weapons.Rank | weapons.py:78-83 | the place where an enemy first stands in the roster, which the strict `<` of the scans favours |
| Weapons.ExceptRank | enemy.py:414-417 | removals keep the roster's order: an enemy before a kept one stays before it |
| Weapons.ExceptSplit | enemy.py:414-417 | removing from a roster is removing from each piece of it in turn |
| Weapons.LocatedNearest | weapons.py:74-85 | on located enemies, nearest and first among equally near on the live positions is exactly `NearestAt` on the cast-time positions |
| Weapons.HopsExtend | weapons.py:106-114 | each hop goes to the first of the nearest unhit enemies within chain range of the hop before |
| Weapons.Struck | weapons.py:110 | the hp after the k-th hit is 0 iff the hit kills, else reduced by the chain damage |
| Weapons.KillCountFlags | weapons.py:110-111 | the kills counted on the chain are the kills flagged as they happened |
| Weapons.Projectile.constructor | weapons.py:125-131 | at the caster, with the direction, speed and range, nothing travelled |
| Weapons.Projectile.Update | weapons.py:142-151 | moves one step, adds its length to the distance, and is removed iff the distance reaches the range |
| Weapons.FlightLength | weapons.py:142-151 | along a unit direction, n updates fly n·speed, and the update that removes the projectile is the 50th for a fireball and the 25th for an ice lance |
| Weapons.StepLength | weapons.py:144-147 | one update's step is the speed along a unit direction and 0 along the zero direction |
| Weapons.FlownLinear | weapons.py:147 | n updates of equal steps fly n steps |
| Weapons.Stranded | weapons.py:144-151 | a projectile with the zero direction stays at distance 0, short of its range, so no update removes it |
| Geometry.DirectionShape | weapons.py:34-36 | the aim direction is zero iff the target is the caster's centre, and a unit vector otherwise |
| Weapons.Weapon.constructor | weapons.py:7-12 | no projectiles, never cast |
| Weapons.Weapon.Gate | weapons.py:14-25 | casts iff the cooldown passed and mana suffices; then mana drops by exactly the cost, stays ≥ 0, and the time is stamped; otherwise nothing changes; a valid player stays valid |
| Weapons.Weapon.CastProjectile | weapons.py:31-66 | a successful cast adds exactly one fresh projectile at the caster, along the normalised aim (zero iff the target is the caster's centre, unit otherwise); a failed one adds none |
| Weapons.Weapon.CastHeal | weapons.py:277-287 | a successful cast sets hp to `min(max_hp, hp + 60)`; a failed one changes nothing |
| Weapons.Wound | weapons.py:109-110 | the current target takes the k-th chain damage, is killed iff its hp reaches 0, and a kill removes it from the roster; the ledger grows by it: marked hit now, alive unless left at 0, every other enemy untouched |
| Weapons.Mend | weapons.py:106-111 | the hit on the current target, together with the untouched rest, is the ledger of the chain one hop longer |
| Weapons.StrikeOne | weapons.py:109-111 | one hit, and its kill reward when it kills; the roster stays the starting roster less the enemies killed so far |
| Weapons.Reward | weapons.py:110-111 | xp is granted once iff the hit killed |
| Weapons.Seek | weapons.py:74-85 | the next target is the first, in roster order, of the nearest eligible enemies, or none is eligible; nothing changes |
| Weapons.TallyStep | weapons.py:110-111 | each hit adds one kill flag, and a kill adds one to the count |
| Weapons.Hop | weapons.py:106-114 | one iteration of the chain loop: hit, reward, then look for the next target; the roster stays the starting roster less the killed |
| Weapons.Chain | weapons.py:99-116 | the chain loop builds a chain meeting the lightning rules, ties going to the first in roster order; the player earns one reward per kill; the roster ends as the starting roster less the killed; each target is marked hit now and every other enemy keeps its hp and marks |
| Weapons.Strike | weapons.py:89-116 | the whole strike: the lightning rules hold, ties going to the first in roster order; each hit enemy's hp is `Struck` of its old hp and it is marked hit now, alive unless left at 0; every other enemy keeps its hp and marks; every enemy stays valid; the roster loses exactly the hit enemies left at 0; xp is one reward per kill |
| Weapons.Aimed | weapons.py:89-116 | the first target is nearest at any distance, the hops are nearest within range, there are at most 3 distinct targets, and the chain stops early only when no one is in range |
| Weapons.Settled | weapons.py:109-111 | the chain's final hp and kill count follow from the per-hit ledger, and the enemies flagged killed are exactly those `Slain` |
| Weapons.Weapon.CastLightning | weapons.py:87-122 | succeeds iff the gate opens, even with no enemies; then the chain obeys the lightning rules, ties going to the first in roster order, each target's hp is `Struck` and it is marked hit now, alive unless left at 0, every other enemy keeps its hp and its marks, every enemy of the old roster stays valid, the roster becomes the old one less the targets left at 0, and xp is one reward per kill; a failed cast changes no hp, mark, roster or xp |
| Weapons.Release | weapons.py:88-122 | an open gate strikes, with the same promises as `Strike`; a closed one strikes nobody and leaves every hp, every mark and the roster as they were |
| Weapons.Untouched | weapons.py:88-122 | a cast that strikes nobody leaves every hp and the roster as they were |
| Wrappers.WithoutMember | enemy.py:417 | `kill()` of a member of a group that holds each sprite once removes exactly one entry and keeps every sprite once |
| Weapons.Except | enemy.py:414-417 | removing enemies from the roster never lengthens it |
| Weapons.ExceptMembers | enemy.py:414-417 | the roster after the removals holds exactly the enemies of the old one that were not removed |
| Weapons.ExceptNone | enemy.py:414-417 | removing nobody keeps the roster |
| Weapons.ExceptOneMore | enemy.py:414-417 | one more `kill()` on the roster is removing one more enemy |
| Weapons.Fallen | weapons.py:110-111 | the enemies flagged as killed are exactly the flagged members of the chain |
| Weapons.FallenStep | weapons.py:110-111 | one more hit adds its enemy to the killed iff it killed |
| Weapons.Fell | weapons.py:110-111 | after one more hit the roster is the starting roster less every enemy killed so far |
| GameLoop.FirstStruck | game.py:88-99 | the index of the first live enemy the projectile touches, or the length; dead ones are skipped |
| GameLoop.Game.constructor | game.py:10-36 | level 1 entered: the player at the level's spawn, one fresh melee enemy per spawn point, score 0 |
| GameLoop.OpenLevel | game.py:22 | a fresh valid level with the given number, whose player spawn and enemy spawns are walkable |
| GameLoop.Game.Populate | game.py:38-41 | one fresh melee enemy per spawn point is appended, the earlier roster is kept, and no enemy is held twice |
| GameLoop.Game.NextLevel | game.py:43-60 | the level number rises by exactly 1; every old enemy is gone; the new level's enemies are fresh; the player and spawn are at the new level's start |
| GameLoop.Game.Arrive | game.py:73-79 | a checkpoint hit activates the first near checkpoint and moves the respawn anchor there; a portal hit enters the next level; with neither, nothing changes |
| GameLoop.Game.FindTarget | game.py:88-95 | the loop finds `FirstStruck` |
| GameLoop.Game.Land | game.py:96-98 | the target takes the weapon's damage and is marked hit now, dead when killed and otherwise as alive as before; a kill removes it, shortening the roster by exactly one, and grants exactly one reward; the projectile is removed |
| GameLoop.Game.HitOne | game.py:87-99 | a projectile damages at most one enemy, the first live one it touches, marks it hit now, dead iff killed, and is removed only then; xp only on a kill; a kill shortens the roster by exactly one; every other enemy is unchanged; a projectile left in place touches no live enemy |
| GameLoop.Game.Shoot | game.py:87-99 | one projectile: a kill takes exactly one enemy out of the roster and gives one reward; enemies that left the roster stay dead at 0 hp; a projectile that touched no live enemy still touches none; the projectile stays in its group only if it touches no live enemy left |
| GameLoop.Game.Volley | game.py:87-99 | over one weapon's projectiles, the roster loses exactly `kills` enemies, each dead at 0 hp, and xp is one reward for each; no hp rises; the projectiles only shrink, and every one left touches no live enemy left in the roster |
| GameLoop.Game.CheckProjectileHits | game.py:84-99 | over all weapons, the roster loses exactly `kills` enemies, each dead at 0 hp, and xp is one reward for each; no hp rises; no projectile is added, and every projectile left in any group touches no live enemy left in the roster |

## Left out

- Rendering is not modelled. This covers every `draw*` method, damage-flash animation, lightning and heal effects, portal particles, the camera, the crosshair and the `main.py` window loop.
- Input polling is not modelled (`get_input`, `update_attack_direction`). Velocities and the mouse direction are parameters.
- Randomness is not modelled beyond its contract. `Rng` promises only what `random` promises, so every result is proved for every draw.
- Enemy steering is not modelled: `update_movement`, path directions, alternative directions, the flocking of `_apply_group_behavior`, `get_random_target` and `generate_patrol_points`. Wander candidates and patrol points are parameters, and `update_movement` recomputes the velocity the state handlers set anyway.
- `BaseEnemy.update` and `Player.update` only compose modelled methods with the unmodelled movement and animation. They are not modelled as one step.
- Enemy `apply_knockback`, `get_distance_to_player` and `get_direction_to_player` are not members of their own. The distance is a parameter whose square is the squared distance, and the direction is `DirectionTo`.
- The dead code `_try_pathfinding` and `_get_alternative_directions` is not modelled.
- Square roots and `normalize()` are not computed. Distances are compared on their squares, which is exact. Where a length is needed (`try_dash`, `try_attack`, projectile steps), it is a parameter whose square is given.
- Doubles are not modelled: positions and hp are exact reals, and `0.8 ** k` and the knockback decay are exact. The one exception is `ENEMY_FLEE_HP_THRESHOLD * 1.5`: `FleeRecovery` is the double it evaluates to, 0.44999999999999996, not the real 0.45.
- `Rect` integer truncation is not modelled: the player's position is the exact real point, not pygame's integer `rect`.
- The melee swing geometry is not modelled (angle, eased progress, trail). `Attack` covers only its cooldown gate and the reset of its progress and trail.
- Sprite collision is not modelled: `spritecollide` with `collide_circle` is the parameter `collide(projectile, enemy)`. Projectile radius and size are not modelled.
- Enemies.Enemy.TryAttack: the ranged override (enemy.py:593-600) is modelled up to the `AttributeError` it raises. The `Projectile` it would create, a class `enemy.py` never defines, has no flight or hit here.
- `Game.score` is never changed by the source, and the model never changes it.
- `Game.weapons` starts empty, because the source never fills `player.weapons`. The casts and projectile hits are proved for every weapon list.
- Weapons.Weapon.CastLightning: targeting is stated on the enemies' positions at cast time (`Positions`); enemies do not move during a cast.
- Enemies.Enemy.AttackState: within 1.2·range it states the state and the attack stamp, but not the attack's effect on the player; `TryAttack` states that effect.
- GameLoop.Game.CheckProjectileHits: it ties the kill count to the roster and states that every projectile left misses every live enemy left. It does not say which enemy each projectile struck; that is `HitOne`'s contract, applied to each projectile in turn.
- GameLoop.Game.Volley: states the same facts as `CheckProjectileHits`, for one weapon.
- LevelGeneration.LevelGenerator.Generate: the generator is proved on grids whose cells are at least 7 tiles, which holds for the 50×50 level. On smaller grids the source's `randint` can raise, and that case is not modelled.
- LevelGeneration.LevelGenerator.PlaceRooms: requires an empty room list, which `generate` guarantees by clearing it first.
- Printing in the generator is not modelled.
