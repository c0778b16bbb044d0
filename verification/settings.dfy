/** Tunable constants of the game, transcribed from settings.py.
    Only the values the simulation core reads are listed. The tile codes are the
    integer ones of settings.py:172-176, which override the earlier string codes. */
module Settings {

  // Screen (the player's initial centre is the middle of the screen)
  const ScreenWidth: int := 1280
  const ScreenHeight: int := 720

  // Player
  const PlayerSpeed: int := 5
  const PlayerStartHp: int := 100
  const PlayerAttackCooldown: int := 500   // ms
  const PlayerStartLevel: int := 1
  const XpToLevel: int := 100
  const PlayerStartMana: int := 100

  // Dash
  const DashSpeed: real := 15.0
  const DashDuration: int := 150           // ms
  const DashCooldown: int := 1000          // ms

  // Enemies
  const EnemySize: int := 48
  const EnemyHp: real := 100.0
  const EnemySpeed: real := 2.5
  const EnemyXpReward: int := 50
  const EnemyAggroRange: real := 250.0
  const EnemyAttackRange: real := 40.0
  const EnemyAttackDamage: int := 10
  const EnemyAttackCooldown: int := 1000   // ms
  const EnemyKnockbackForce: real := 8.0
  const EnemyFleeHpThreshold: real := 0.3

  // World
  const TileSize: int := 64

  // Tiles (settings.py:172-175)
  const TileFloor: int := 0
  const TileWall: int := 1
  const TileCheckpoint: int := 2
  const TilePortal: int := 3

  // Level generation
  const RoomMinSize: int := 8
  const RoomMaxSize: int := 12
  const RoomsPerLevel: int := 8
  const MinRoomDistance: int := 2
  const CorridorWidth: int := 3
  const EnemiesPerRoomMin: int := 8
  const EnemiesPerRoomMax: int := 15
  const MinEnemyDistance: int := 2
  const MinEnemyDistanceFromPlayer: int := 10

  // Checkpoints and portal
  const CheckpointRadius: real := 32.0
  const PortalActivationRadius: real := 64.0
}
