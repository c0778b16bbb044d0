/** The player (player.py): experience and levels, damage, death and the
    delayed respawn, the dash and attack cooldowns, and the way a step is
    resolved against walls and enemies. Time is the explicit `now` (the
    milliseconds of `pygame.time.get_ticks()`); the level's tile map is
    passed to the methods that ask it. */
module Players {
  import opened Settings
  import opened Geometry
  import opened LevelMap

  /** `TILESIZE // 2`: the player is a disc of radius 32 in a 64-pixel box. */
  const PlayerRadius: real := 32.0
  /** The initial `respawn_delay` (player.py:39); it is never changed. */
  const RespawnDelay: int := 3000
  /** The initial `invulnerable_duration` (player.py:33). */
  const HitInvulnerability: int := 500
  /** The `invulnerable_duration` set by `respawn` (player.py:379). */
  const SpawnInvulnerability: int := 2000

  // ---------------------------------------------------------------------
  // Experience

  /** The experience bookkeeping of a player: level, experience towards the
      next level and the experience that level needs. */
  datatype Progress = Progress(level: int, xp: int, threshold: int)

  /** `int(t * 1.5)` for a positive whole threshold. */
  function NextThreshold(t: int): (r: int)
    requires t > 0
    ensures t <= r && 2 * r <= 3 * t && 3 * t < 2 * r + 2
  {
    (3 * t) / 2
  }

  /** What the `while` of `gain_xp` leaves: levels are gained, each one
      spending its threshold and raising the next by half, until the
      experience is below the threshold. */
  function Climb(p: Progress): (r: Progress)
    requires p.threshold > 0
    ensures r.xp < r.threshold && r.threshold >= p.threshold && r.level >= p.level
    ensures r.xp <= p.xp && (p.xp >= 0 ==> r.xp >= 0)
    ensures p.xp < p.threshold ==> r == p
    decreases if p.xp < 0 then 0 else p.xp
  {
    if p.xp >= p.threshold then
      Climb(Progress(p.level + 1, p.xp - p.threshold, NextThreshold(p.threshold)))
    else p
  }

  /** One level-up does not change where the climb ends. */
  lemma ClimbStep(p: Progress)
    requires 0 < p.threshold <= p.xp
    ensures Climb(p) == Climb(Progress(p.level + 1, p.xp - p.threshold, NextThreshold(p.threshold)))
  {
  }

  /** `gain_xp(amount)` on the bookkeeping p. */
  function Gain(p: Progress, amount: int): (r: Progress)
    requires p.threshold > 0
    ensures r.xp < r.threshold && r.threshold >= p.threshold && r.level >= p.level
  {
    Climb(Progress(p.level, p.xp + amount, p.threshold))
  }

  /** From 0 experience and a threshold of 100, gaining 250 climbs two
      levels (spending 100, then 150) and leaves 0 towards a threshold of
      225. */
  lemma GainExample(level: int)
    ensures Gain(Progress(level, 0, XpToLevel), 250) == Progress(level + 2, 0, 225)
  {
    assert Climb(Progress(level + 2, 0, 225)) == Progress(level + 2, 0, 225);
    assert Climb(Progress(level + 1, 150, 150)) == Progress(level + 2, 0, 225);
  }

  /** More experience never yields fewer levels. */
  lemma {:induction false} ClimbMonotone(p: Progress, q: Progress)
    requires p.threshold > 0 && q.level == p.level && q.threshold == p.threshold && p.xp <= q.xp
    ensures Climb(p).level <= Climb(q).level
    decreases if p.xp < 0 then 0 else p.xp
  {
    if p.xp >= p.threshold {
      var t := NextThreshold(p.threshold);
      var p', q' := Progress(p.level + 1, p.xp - p.threshold, t), Progress(q.level + 1, q.xp - q.threshold, t);
      assert Climb(p) == Climb(p') && Climb(q) == Climb(q');
      ClimbMonotone(p', q');
    } else {
      assert Climb(p) == p;
    }
  }

  /** Climbing first and gaining b afterwards ends where gaining b straight
      away does: the thresholds are spent in the same order either way. */
  lemma {:induction false} ClimbThenGain(p: Progress, b: int)
    requires p.threshold > 0 && b >= 0
    ensures Gain(Climb(p), b) == Gain(p, b)
    decreases if p.xp < 0 then 0 else p.xp
  {
    if p.xp >= p.threshold {
      var next := Progress(p.level + 1, p.xp - p.threshold, NextThreshold(p.threshold));
      assert Climb(p) == Climb(next);
      assert Gain(p, b) == Gain(next, b);
      ClimbThenGain(next, b);
    } else {
      assert Climb(p) == p;
    }
  }

  /** Two gains are one gain of the sum, so k rewards of `ENEMY_XP_REWARD`
      are one gain of k times the reward, in whatever calls they arrive. */
  lemma GainAdditive(p: Progress, a: int, b: int)
    requires p.threshold > 0 && b >= 0
    ensures Gain(Gain(p, a), b) == Gain(p, a + b)
  {
    var pa := Progress(p.level, p.xp + a, p.threshold);
    ClimbThenGain(pa, b);
    assert Progress(pa.level, pa.xp + b, pa.threshold) == Progress(p.level, p.xp + (a + b), p.threshold);
  }

  /** k kill rewards in a row. */
  function Rewards(p: Progress, k: nat): (r: Progress)
    requires p.threshold > 0
    ensures r.threshold > 0 && r.level >= p.level
  {
    if k == 0 then p else Gain(Rewards(p, k - 1), EnemyXpReward)
  }

  /** k kill rewards are one gain of k times the reward. */
  lemma {:induction false} RewardsAreOneGain(p: Progress, k: nat)
    requires 0 <= p.xp < p.threshold
    ensures Rewards(p, k) == Gain(p, k * EnemyXpReward)
  {
    if k == 0 {
      assert Gain(p, 0) == Climb(p);
    } else {
      RewardsAreOneGain(p, k - 1);
      GainAdditive(p, (k - 1) * EnemyXpReward, EnemyXpReward);
    }
  }

  /** Rewards counted in two batches are the rewards of all of them. */
  lemma {:induction false} RewardsCompose(p: Progress, a: nat, b: nat)
    requires p.threshold > 0
    ensures Rewards(Rewards(p, a), b) == Rewards(p, a + b)
  {
    if b > 0 {
      RewardsCompose(p, a, b - 1);
    }
  }

  // ---------------------------------------------------------------------
  // Respawn search

  /** `range(-TILESIZE * 2, TILESIZE * 2, TILESIZE // 2)`. */
  const Offsets: seq<real> := [-128.0, -96.0, -64.0, -32.0, 0.0, 32.0, 64.0, 96.0]

  /** The 64 offsets `respawn` tries, x-major: the k-th is
      (Offsets[k / 8], Offsets[k % 8]). */
  function ProbeGrid(): (g: seq<Vec>)
    ensures |g| == 64
  {
    seq(64, k requires 0 <= k < 64 => Vec(Offsets[k / 8], Offsets[k % 8]))
  }

  /** The point s + o is not a wall. */
  predicate Open(level: Level, s: Vec, o: Vec)
    reads level, level.tiles
    requires level.Valid()
  {
    !level.IsWallAt(s.x + o.x, s.y + o.y)
  }

  /** The index of the first candidate offset that leads to an open point,
      or |offs| when every one leads into a wall. */
  function FirstOpenAt(level: Level, s: Vec, offs: seq<Vec>): (k: nat)
    reads level, level.tiles
    requires level.Valid()
    ensures k <= |offs|
    ensures forall j :: 0 <= j < k ==> !Open(level, s, offs[j])
    ensures k < |offs| ==> Open(level, s, offs[k])
  {
    if offs == [] then 0
    else if Open(level, s, offs[0]) then 0
    else 1 + FirstOpenAt(level, s, offs[1..])
  }

  /** The first open candidate is the one every earlier candidate fails
      before. */
  lemma {:induction false} FirstOpenAtIs(level: Level, s: Vec, offs: seq<Vec>, k: int)
    requires level.Valid() && 0 <= k < |offs| && Open(level, s, offs[k])
    requires forall j :: 0 <= j < k ==> !Open(level, s, offs[j])
    ensures FirstOpenAt(level, s, offs) == k
  {
    if k > 0 {
      FirstOpenAtIs(level, s, offs[1..], k - 1);
    }
  }

  /** Where `respawn` puts the player: the spawn point when it is open,
      else the first open point of the search grid, else the spawn point. */
  function RespawnPoint(level: Level, s: Vec): Vec
    reads level, level.tiles
    requires level.Valid()
  {
    if !level.IsWallAt(s.x, s.y) then s
    else
      var k := FirstOpenAt(level, s, ProbeGrid());
      if k < 64 then s.Plus(ProbeGrid()[k]) else s
  }

  /** The point s moved by the a-th x offset and the b-th y offset is open. */
  predicate OpenAt(level: Level, s: Vec, a: int, b: int)
    reads level, level.tiles
    requires level.Valid() && 0 <= a < 8 && 0 <= b < 8
  {
    Open(level, s, Vec(Offsets[a], Offsets[b]))
  }

  /** The grid entry 8a + b pairs the a-th x offset with the b-th y offset. */
  lemma GridAt(a: int, b: int)
    requires 0 <= a < 8 && 0 <= b < 8
    ensures ProbeGrid()[8 * a + b] == Vec(Offsets[a], Offsets[b])
  {
    assert (8 * a + b) / 8 == a && (8 * a + b) % 8 == b;
  }

  /** The grid order is the x-major order of the offset pairs: when the
      first k pairs are closed, so are the first k grid entries. */
  lemma GridOrder(level: Level, s: Vec, k: int)
    requires level.Valid() && 0 <= k <= 64
    requires forall a, b :: 0 <= a < 8 && 0 <= b < 8 && 8 * a + b < k ==> !OpenAt(level, s, a, b)
    ensures forall n :: 0 <= n < k ==> !Open(level, s, ProbeGrid()[n])
    ensures k == 64 ==> FirstOpenAt(level, s, ProbeGrid()) == 64
  {
    forall n | 0 <= n < k
      ensures !Open(level, s, ProbeGrid()[n])
    {
      var a, b := n / 8, n % 8;
      assert 8 * a + b == n;
      assert !OpenAt(level, s, a, b);
    }
  }

  /** When the pair (a, b) is the first open one in x-major order, the
      player respawns at s moved by the a-th x and the b-th y offset. */
  lemma RespawnAtPair(level: Level, s: Vec, a: int, b: int)
    requires level.Valid() && level.IsWallAt(s.x, s.y) && 0 <= a < 8 && 0 <= b < 8
    requires forall a', b' :: 0 <= a' < 8 && 0 <= b' < 8 && 8 * a' + b' < 8 * a + b ==> !OpenAt(level, s, a', b')
    requires OpenAt(level, s, a, b)
    ensures RespawnPoint(level, s) == Vec(s.x + Offsets[a], s.y + Offsets[b])
  {
    GridOrder(level, s, 8 * a + b);
    GridAt(a, b);
    FirstOpenAtIs(level, s, ProbeGrid(), 8 * a + b);
  }

  /** The respawn point is open whenever the spawn point or any point of the
      search grid around it is open; when none is, the player is put back on
      the walled spawn point. */
  lemma RespawnPointOpen(level: Level, s: Vec)
    requires level.Valid()
    ensures (!level.IsWallAt(s.x, s.y) || exists k :: 0 <= k < 64 && Open(level, s, ProbeGrid()[k])) ==>
              !level.IsWallAt(RespawnPoint(level, s).x, RespawnPoint(level, s).y)
    ensures (level.IsWallAt(s.x, s.y) && forall k :: 0 <= k < 64 ==> !Open(level, s, ProbeGrid()[k])) ==>
              RespawnPoint(level, s) == s
  {
    var k := FirstOpenAt(level, s, ProbeGrid());
    if k < 64 {
      assert s.Plus(ProbeGrid()[k]) == Vec(s.x + ProbeGrid()[k].x, s.y + ProbeGrid()[k].y);
    }
  }

  // ---------------------------------------------------------------------
  // Moving

  /** What the player sees of an enemy when testing overlap: its centre, its
      radius and whether it is alive. */
  datatype Disc = Disc(centre: Vec, radius: real, alive: bool)

  /** A live enemy's disc overlaps the player's disc centred at c: the
      centre distance is below the sum of the radii, compared on squares. */
  predicate Overlaps(c: Vec, e: Disc)
  {
    e.alive && 0.0 <= PlayerRadius + e.radius && DistSq(c, e.centre) < (PlayerRadius + e.radius) * (PlayerRadius + e.radius)
  }

  /** `collide_with_enemies` at centre c, over the enemies in roster order. */
  predicate EnemyAt(others: seq<Disc>, c: Vec)
  {
    exists i :: 0 <= i < |others| && Overlaps(c, others[i])
  }

  /** The step d from centre c is refused: an enemy or a wall is in the way. */
  predicate Blocked(level: Level, others: seq<Disc>, c: Vec, d: Vec)
    reads level, level.tiles
    requires level.Valid()
  {
    EnemyAt(others, c.Plus(d)) || level.WallAmong(ProbePoints(c, PlayerRadius, d))
  }

  /** The centre c is free: the player standing there touches no enemy and
      no wall. */
  predicate Clear(level: Level, others: seq<Disc>, c: Vec)
    reads level, level.tiles
    requires level.Valid()
  {
    !Blocked(level, others, c, Zero)
  }

  /** Testing the step d from c is testing the standing position c + d. */
  lemma BlockedIsClearAfter(level: Level, others: seq<Disc>, c: Vec, d: Vec)
    requires level.Valid()
    ensures Blocked(level, others, c, d) <==> !Clear(level, others, c.Plus(d))
  {
    assert c.Plus(d).Plus(Zero) == c.Plus(d);
    assert ProbePoints(c, PlayerRadius, d) == ProbePoints(c.Plus(d), PlayerRadius, Zero);
  }

  /** The step `move` takes from c with velocity v: both axes non-zero try
      the diagonal, then x alone, then y alone; otherwise x is tried and
      then y from wherever x left the player. */
  function Resolve(level: Level, others: seq<Disc>, c: Vec, v: Vec): Vec
    reads level, level.tiles
    requires level.Valid()
  {
    var alongX, alongY := Vec(v.x, 0.0), Vec(0.0, v.y);
    if v.x != 0.0 && v.y != 0.0 then
      if !Blocked(level, others, c, v) then c.Plus(v)
      else if !Blocked(level, others, c, alongX) then c.Plus(alongX)
      else if !Blocked(level, others, c, alongY) then c.Plus(alongY)
      else c
    else
      var c1 := if !Blocked(level, others, c, alongX) then c.Plus(alongX) else c;
      if !Blocked(level, others, c1, alongY) then c1.Plus(alongY) else c1
  }

  /** The move policy takes one of four steps: none, the diagonal, x alone
      or y alone, and a step it takes ends on a clear position. So a player
      that stands clear of walls and enemies stays clear. */
  lemma ResolveKeepsClear(level: Level, others: seq<Disc>, c: Vec, v: Vec)
    requires level.Valid()
    ensures var r := Resolve(level, others, c, v);
      r == c || r == c.Plus(v) || r == c.Plus(Vec(v.x, 0.0)) || r == c.Plus(Vec(0.0, v.y))
    ensures Clear(level, others, c) ==> Clear(level, others, Resolve(level, others, c, v))
  {
    var alongX, alongY := Vec(v.x, 0.0), Vec(0.0, v.y);
    BlockedIsClearAfter(level, others, c, v);
    BlockedIsClearAfter(level, others, c, alongX);
    BlockedIsClearAfter(level, others, c, alongY);
    if !(v.x != 0.0 && v.y != 0.0) {
      var c1 := if !Blocked(level, others, c, alongX) then c.Plus(alongX) else c;
      BlockedIsClearAfter(level, others, c1, alongY);
      if v.x == 0.0 {
        assert c.Plus(alongX) == c;
        assert c1 == c;
      } else {
        assert alongY == Zero;
        assert c1.Plus(alongY) == c1;
      }
    }
  }

  /** A clear position lies on the grid, with the whole 64-pixel box inside
      the level. */
  lemma ClearOnGrid(level: Level, others: seq<Disc>, c: Vec)
    requires level.Valid() && Clear(level, others, c)
    ensures PlayerRadius <= c.x < (LevelWidth * TileSize) as real - PlayerRadius
    ensures PlayerRadius <= c.y < (LevelHeight * TileSize) as real - PlayerRadius
  {
    level.ClearProbeOnGrid(c, PlayerRadius, Zero);
  }

  /** The knockback after one frame: scaled by 0.8, and dropped to zero once
      its length is below 0.1 (compared on squares). */
  function Decay(k: Vec): Vec
  {
    var s := k.Scale(0.8);
    if s.LenSq() < 0.01 then Zero else s
  }

  /** A knockback that is set fades out: each frame it either vanishes or
      keeps its direction at 0.8 of its length (so it loses more than a third
      of its squared length) while that length stays at least 0.1. */
  lemma DecayShrinks(k: Vec)
    ensures Decay(k) == Zero || (Decay(k) == k.Scale(0.8) && Decay(k).LenSq() >= 0.01)
    ensures Decay(k).LenSq() <= 0.64 * k.LenSq()
  {
    var s := k.Scale(0.8);
    assert s.LenSq() == 0.64 * k.LenSq();
    assert k.x * k.x >= 0.0 && k.y * k.y >= 0.0;
  }

  /** What one frame of `move` leaves of the knockback: a set knockback
      decays, a zero one stays zero. */
  function Fade(k: Vec): Vec
  {
    if k.LenSq() > 0.0 then Decay(k) else k
  }

  /** The knockback never grows, and a zero knockback stays zero. */
  lemma FadeShrinks(k: Vec)
    ensures Fade(k).LenSq() <= k.LenSq()
    ensures k == Zero ==> Fade(k) == Zero
  {
    DecayShrinks(k);
    assert k.x * k.x >= 0.0 && k.y * k.y >= 0.0;
  }

  /** The velocity `move` applies: the knockback is added when it is set. */
  function Push(v: Vec, k: Vec): Vec
  {
    if k.LenSq() > 0.0 then v.Plus(k) else v
  }

  // ---------------------------------------------------------------------
  // The player

  class Player {
    /** `rect.center`, which `position` always mirrors after a step. */
    var pos: Vec
    var spawnPosition: Vec
    var velocityX: real
    var velocityY: real
    var hp: int
    var maxHp: int
    var level: int
    var xp: int
    var xpToNextLevel: int
    var isInvulnerable: bool
    var invulnerableTime: int
    var invulnerableDuration: int
    var knockback: Vec
    var alive: bool
    var deathTime: int
    var lastAttackTime: int
    var isAttacking: bool
    var attackProgress: real
    var attackTrail: seq<Vec>
    var isDashing: bool
    var dashDirection: Vec
    var dashStartTime: int
    var lastDashTime: int
    /** `current_mana`, read and spent by the weapons; the player's own code
        never sets it. */
    var currentMana: int

    /** What the player's methods keep: the threshold stays positive, hp
        is never negative and the invulnerability window is one of the two
        durations the code uses. */
    ghost predicate Valid()
      reads this
    {
      xpToNextLevel > 0 && 0 <= hp && maxHp == PlayerStartHp &&
      (invulnerableDuration == HitInvulnerability || invulnerableDuration == SpawnInvulnerability)
    }

    /** The player's experience bookkeeping. */
    function Standing(): Progress
      reads this`level, this`xp, this`xpToNextLevel
    {
      Progress(level, xp, xpToNextLevel)
    }

    /** `Player(game)`: at the middle of the screen, full health, level 1. */
    constructor ()
      ensures Valid() && alive && !isInvulnerable && !isDashing && !isAttacking
      ensures pos == Vec((ScreenWidth / 2) as real, (ScreenHeight / 2) as real) && spawnPosition == pos
      ensures hp == PlayerStartHp && level == PlayerStartLevel && xp == 0 && xpToNextLevel == XpToLevel
      ensures invulnerableDuration == HitInvulnerability && knockback == Zero
      ensures currentMana == PlayerStartMana
    {
      pos := Vec((ScreenWidth / 2) as real, (ScreenHeight / 2) as real);
      spawnPosition := Vec((ScreenWidth / 2) as real, (ScreenHeight / 2) as real);
      velocityX, velocityY := 0.0, 0.0;
      hp, maxHp := PlayerStartHp, PlayerStartHp;
      level, xp, xpToNextLevel := PlayerStartLevel, 0, XpToLevel;
      isInvulnerable, invulnerableTime, invulnerableDuration := false, 0, HitInvulnerability;
      knockback := Zero;
      alive, deathTime := true, 0;
      lastAttackTime, isAttacking, attackProgress, attackTrail := 0, false, 0.0, [];
      isDashing, dashDirection, dashStartTime, lastDashTime := false, Zero, 0, 0;
      currentMana := PlayerStartMana;
    }

    /** `level_up`: one level more, the threshold spent, the next threshold
        half as large again; mana is not refilled. */
    method LevelUp()
      requires xpToNextLevel > 0
      modifies this`level, this`xp, this`xpToNextLevel
      ensures level == old(level) + 1 && xp == old(xp) - old(xpToNextLevel)
      ensures xpToNextLevel == NextThreshold(old(xpToNextLevel)) >= old(xpToNextLevel)
    {
      level := level + 1;
      xp := xp - xpToNextLevel;
      xpToNextLevel := NextThreshold(xpToNextLevel);
    }

    /** `gain_xp`: add the amount, then level up while the threshold is
        reached. */
    method GainXp(amount: int)
      requires xpToNextLevel > 0
      modifies this`level, this`xp, this`xpToNextLevel
      ensures Standing() == Gain(old(Standing()), amount)
      ensures xp < xpToNextLevel
    {
      ghost var target := Gain(Standing(), amount);
      xp := xp + amount;
      while xp >= xpToNextLevel
        invariant xpToNextLevel > 0 && Climb(Progress(level, xp, xpToNextLevel)) == target
        decreases xp
      {
        ClimbStep(Progress(level, xp, xpToNextLevel));
        LevelUp();
      }
    }

    /** `apply_knockback`. */
    method ApplyKnockback(direction: Vec, force: real)
      modifies this`knockback
      ensures knockback == direction.Scale(force)
    {
      knockback := direction.Scale(force);
    }

    /** `die`: dead since now, with every transient effect cleared. */
    method Die(now: int)
      modifies this`alive, this`deathTime, this`isAttacking, this`isDashing, this`knockback,
               this`velocityX, this`velocityY
      ensures !alive && deathTime == now && !isAttacking && !isDashing
      ensures knockback == Zero && velocityX == 0.0 && velocityY == 0.0
    {
      alive := false;
      deathTime := now;
      isAttacking := false;
      isDashing := false;
      knockback := Zero;
      velocityX, velocityY := 0.0, 0.0;
    }

    /** `take_damage`: ignored while invulnerable or dead; otherwise hp drops
        (to 0 at worst, which kills), invulnerability starts now, and the
        answer is true. */
    method TakeDamage(amount: int, now: int) returns (applied: bool)
      requires Valid()
      modifies this`hp, this`isInvulnerable, this`invulnerableTime, this`alive, this`deathTime,
               this`isAttacking, this`isDashing, this`knockback, this`velocityX, this`velocityY
      ensures Valid()
      ensures applied <==> !old(isInvulnerable) && old(alive)
      ensures applied ==> hp == (if old(hp) - amount <= 0 then 0 else old(hp) - amount)
      ensures applied ==> isInvulnerable && invulnerableTime == now
      ensures applied ==> (alive <==> old(hp) - amount > 0)
      ensures applied && !alive ==> deathTime == now && !isAttacking && !isDashing && knockback == Zero &&
                                    velocityX == 0.0 && velocityY == 0.0
      ensures applied && alive ==> isAttacking == old(isAttacking) && isDashing == old(isDashing) &&
                                   knockback == old(knockback) && deathTime == old(deathTime) &&
                                   velocityX == old(velocityX) && velocityY == old(velocityY)
      ensures !applied ==> unchanged(this)
    {
      if !isInvulnerable && alive {
        hp := hp - amount;
        isInvulnerable := true;
        invulnerableTime := now;
        if hp <= 0 {
          hp := 0;
          Die(now);
        }
        return true;
      }
      return false;
    }

    /** `respawn`: alive at full health, on the spawn point or the first open
        point around it, invulnerable for 2000 ms from now. */
    method Respawn(now: int, lvl: Level)
      requires Valid() && lvl.Valid()
      modifies this`alive, this`hp, this`pos, this`isInvulnerable, this`invulnerableTime,
               this`invulnerableDuration
      ensures Valid() && alive && hp == maxHp
      ensures pos == RespawnPoint(lvl, spawnPosition)
      ensures isInvulnerable && invulnerableTime == now && invulnerableDuration == SpawnInvulnerability
    {
      var spot := FindSpawnSpot(lvl, spawnPosition);
      alive := true;
      hp := maxHp;
      pos := spot;
      isInvulnerable := true;
      invulnerableTime := now;
      invulnerableDuration := SpawnInvulnerability;
    }

    /** The nested search loops of `respawn`: x offsets outside, y offsets
        inside, stopping at the first open point. */
    static method FindSpawnSpot(lvl: Level, s: Vec) returns (spot: Vec)
      requires lvl.Valid()
      ensures spot == RespawnPoint(lvl, s)
    {
      spot := s;
      if !lvl.IsWallAt(spot.x, spot.y) {
        return;
      }
      var i := 0;
      while i < 8
        invariant 0 <= i <= 8
        invariant forall a, b :: 0 <= a < 8 && 0 <= b < 8 && 8 * a + b < 8 * i ==> !OpenAt(lvl, s, a, b)
      {
        var found;
        found, spot := SearchColumn(lvl, s, i);
        if found {
          return;
        }
        i := i + 1;
      }
      GridOrder(lvl, s, 64);
      spot := s;
    }

    /** The inner loop of the respawn search for the i-th x offset, entered
        when every earlier column was closed. */
    static method SearchColumn(lvl: Level, s: Vec, i: int) returns (found: bool, spot: Vec)
      requires lvl.Valid() && lvl.IsWallAt(s.x, s.y) && 0 <= i < 8
      requires forall a, b :: 0 <= a < 8 && 0 <= b < 8 && 8 * a + b < 8 * i ==> !OpenAt(lvl, s, a, b)
      ensures found ==> spot == RespawnPoint(lvl, s)
      ensures !found ==> forall a, b :: 0 <= a < 8 && 0 <= b < 8 && 8 * a + b < 8 * i + 8 ==> !OpenAt(lvl, s, a, b)
    {
      var j := 0;
      while j < 8
        invariant 0 <= j <= 8
        invariant forall a, b :: 0 <= a < 8 && 0 <= b < 8 && 8 * a + b < 8 * i + j ==> !OpenAt(lvl, s, a, b)
      {
        var test := Vec(s.x + Offsets[i], s.y + Offsets[j]);
        if !lvl.IsWallAt(test.x, test.y) {
          assert OpenAt(lvl, s, i, j);
          RespawnAtPair(lvl, s, i, j);
          return true, test;
        }
        j := j + 1;
      }
      return false, s;
    }

    /** `check_respawn`: a dead player comes back once the delay has passed
        since death. */
    method CheckRespawn(now: int, lvl: Level)
      requires Valid() && lvl.Valid()
      modifies this`alive, this`hp, this`pos, this`isInvulnerable, this`invulnerableTime,
               this`invulnerableDuration
      ensures Valid()
      ensures !old(alive) && now - deathTime >= RespawnDelay ==>
                alive && hp == maxHp && pos == RespawnPoint(lvl, spawnPosition) &&
                isInvulnerable && invulnerableTime == now && invulnerableDuration == SpawnInvulnerability
      ensures !(!old(alive) && now - deathTime >= RespawnDelay) ==>
                alive == old(alive) && hp == old(hp) && pos == old(pos) && isInvulnerable == old(isInvulnerable) &&
                invulnerableTime == old(invulnerableTime) && invulnerableDuration == old(invulnerableDuration)
    {
      if !alive && now - deathTime >= RespawnDelay {
        Respawn(now, lvl);
      }
    }

    /** `update_invulnerability`: the flag drops once its duration has
        passed; the duration itself is left as it is. */
    method UpdateInvulnerability(now: int)
      modifies this`isInvulnerable
      ensures isInvulnerable <==> old(isInvulnerable) && now - invulnerableTime < invulnerableDuration
    {
      if isInvulnerable && now - invulnerableTime >= invulnerableDuration {
        isInvulnerable := false;
      }
    }

    /** `try_dash`: with the cooldown over and a movement intent, the dash
        starts now in the direction of the intent at DASH_SPEED. `length` is
        the intent's length, which the source takes with a square root. */
    method TryDash(now: int, length: real)
      requires length >= 0.0 && length * length == velocityX * velocityX + velocityY * velocityY
      modifies this`isDashing, this`dashStartTime, this`lastDashTime, this`dashDirection
      ensures now - old(lastDashTime) >= DashCooldown && length > 0.0 ==>
                isDashing && dashStartTime == now && lastDashTime == now &&
                dashDirection == Vec(velocityX / length * DashSpeed, velocityY / length * DashSpeed)
      ensures !(now - old(lastDashTime) >= DashCooldown && length > 0.0) ==>
                isDashing == old(isDashing) && dashStartTime == old(dashStartTime) &&
                lastDashTime == old(lastDashTime) && dashDirection == old(dashDirection)
    {
      if now - lastDashTime >= DashCooldown {
        if length > 0.0 {
          isDashing := true;
          dashStartTime := now;
          lastDashTime := now;
          dashDirection := Vec(velocityX / length * DashSpeed, velocityY / length * DashSpeed);
        }
      }
    }

    /** `update_dash`: a dash ends once DASH_DURATION has passed since it
        started; until then it drives the velocity. */
    method UpdateDash(now: int)
      modifies this`isDashing, this`dashDirection, this`velocityX, this`velocityY
      ensures old(isDashing) && now - dashStartTime >= DashDuration ==>
                !isDashing && dashDirection == Zero && velocityX == old(velocityX) && velocityY == old(velocityY)
      ensures old(isDashing) && now - dashStartTime < DashDuration ==>
                isDashing && dashDirection == old(dashDirection) &&
                velocityX == dashDirection.x && velocityY == dashDirection.y
      ensures !old(isDashing) ==> !isDashing && dashDirection == old(dashDirection) &&
                                  velocityX == old(velocityX) && velocityY == old(velocityY)
    {
      if isDashing {
        if now - dashStartTime >= DashDuration {
          isDashing := false;
          dashDirection := Zero;
        } else {
          velocityX := dashDirection.x;
          velocityY := dashDirection.y;
        }
      }
    }

    /** `attack`: once the cooldown has passed, a swing starts now with an
        empty trail. */
    method Attack(now: int)
      modifies this`lastAttackTime, this`isAttacking, this`attackProgress, this`attackTrail
      ensures now - old(lastAttackTime) >= PlayerAttackCooldown ==>
                lastAttackTime == now && isAttacking && attackProgress == 0.0 && attackTrail == []
      ensures now - old(lastAttackTime) < PlayerAttackCooldown ==>
                lastAttackTime == old(lastAttackTime) && isAttacking == old(isAttacking) &&
                attackProgress == old(attackProgress) && attackTrail == old(attackTrail)
    {
      if now - lastAttackTime >= PlayerAttackCooldown {
        lastAttackTime := now;
        isAttacking := true;
        attackProgress := 0.0;
        attackTrail := [];
      }
    }

    /** `collide_with_enemies(dx, dy)`: the loop over the roster, stopping at
        the first live enemy the moved disc overlaps. */
    method CollideWithEnemies(others: seq<Disc>, dx: real, dy: real) returns (hit: bool)
      ensures hit <==> EnemyAt(others, pos.Plus(Vec(dx, dy)))
    {
      var c := pos.Plus(Vec(dx, dy));
      for i := 0 to |others|
        invariant forall j :: 0 <= j < i ==> !Overlaps(c, others[j])
      {
        var e := others[i];
        if e.alive && 0.0 <= PlayerRadius + e.radius &&
           DistSq(c, e.centre) < (PlayerRadius + e.radius) * (PlayerRadius + e.radius) {
          assert Overlaps(c, others[i]);
          return true;
        }
      }
      return false;
    }

    /** `collide_with_walls(dx, dy)`: one of the nine probe points is on a
        wall. */
    method CollideWithWalls(lvl: Level, dx: real, dy: real) returns (hit: bool)
      requires lvl.Valid()
      ensures hit <==> lvl.WallAmong(ProbePoints(pos, PlayerRadius, Vec(dx, dy)))
    {
      hit := lvl.FindWall(ProbePoints(pos, PlayerRadius, Vec(dx, dy)));
    }

    /** Whether the step (dx, dy) from the current centre is free, asked in
        the order the source asks: enemies first, then walls. */
    method Free(lvl: Level, others: seq<Disc>, dx: real, dy: real) returns (free: bool)
      requires lvl.Valid()
      ensures free <==> !Blocked(lvl, others, pos, Vec(dx, dy))
    {
      var hitEnemy := CollideWithEnemies(others, dx, dy);
      if hitEnemy {
        return false;
      }
      var hitWall := CollideWithWalls(lvl, dx, dy);
      free := !hitWall;
    }

    /** `move`: the dash is updated, the knockback is added to the velocity
        and fades, and the step is resolved by the diagonal-then-single-axis
        policy. */
    method Move(now: int, lvl: Level, others: seq<Disc>)
      requires lvl.Valid()
      modifies this`isDashing, this`dashDirection, this`velocityX, this`velocityY, this`knockback, this`pos
      ensures old(isDashing) && now - dashStartTime >= DashDuration ==>
                !isDashing && dashDirection == Zero && velocityX == old(velocityX) && velocityY == old(velocityY)
      ensures old(isDashing) && now - dashStartTime < DashDuration ==>
                isDashing && dashDirection == old(dashDirection) &&
                velocityX == dashDirection.x && velocityY == dashDirection.y
      ensures !old(isDashing) ==> !isDashing && dashDirection == old(dashDirection) &&
                                  velocityX == old(velocityX) && velocityY == old(velocityY)
      ensures knockback == Fade(old(knockback))
      ensures pos == Resolve(lvl, others, old(pos), Push(Vec(velocityX, velocityY), old(knockback)))
    {
      UpdateDash(now);
      Drift(lvl, others);
    }

    /** The part of `move` after the dash update: the current velocity plus
        the knockback is resolved into a step, and the knockback fades. */
    method Drift(lvl: Level, others: seq<Disc>)
      requires lvl.Valid()
      modifies this`knockback, this`pos
      ensures knockback == Fade(old(knockback))
      ensures pos == Resolve(lvl, others, old(pos), Push(Vec(velocityX, velocityY), old(knockback)))
    {
      var v := Push(Vec(velocityX, velocityY), knockback);
      knockback := Fade(knockback);
      Step(lvl, others, v);
    }

    /** The collision-resolution part of `move` for the velocity v. */
    method Step(lvl: Level, others: seq<Disc>, v: Vec)
      requires lvl.Valid()
      modifies this`pos
      ensures pos == Resolve(lvl, others, old(pos), v)
    {
      if v.x != 0.0 && v.y != 0.0 {
        var diagonal := Free(lvl, others, v.x, v.y);
        if diagonal {
          pos := pos.Plus(v);
        } else {
          var xOnly := Free(lvl, others, v.x, 0.0);
          if xOnly {
            pos := pos.Plus(Vec(v.x, 0.0));
          } else {
            var yOnly := Free(lvl, others, 0.0, v.y);
            if yOnly {
              pos := pos.Plus(Vec(0.0, v.y));
            }
          }
        }
      } else {
        var xOnly := Free(lvl, others, v.x, 0.0);
        if xOnly {
          pos := pos.Plus(Vec(v.x, 0.0));
        }
        var yOnly := Free(lvl, others, 0.0, v.y);
        if yOnly {
          pos := pos.Plus(Vec(0.0, v.y));
        }
      }
    }
  }
}
