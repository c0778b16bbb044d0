/** game.py: the game object that owns the level, the player and the enemy
    roster, and the rules that tie them together each frame: projectile
    hits, the checkpoint and portal checks, and the move to the next level. */
module GameLoop {
  import opened Settings
  import opened Geometry
  import opened Wrappers
  import opened Random
  import opened LevelMap
  import opened Players
  import opened Enemies
  import opened Weapons

  /** A fresh `MeleeEnemy` (the `Enemy` of `create_enemy`) standing at `at`. */
  ghost predicate Spawned(e: Enemy, at: Vec)
    reads e
  {
    e.Valid() && e.kind == Melee && e.pos == at && e.spawnPosition == at && e.alive && e.currentHp == EnemyHp
  }

  /** The index in `roster` of the enemy a projectile at `at` strikes: the
      first one, in roster order, that the circle test `collide` reports
      and that is alive; |roster| when there is none. */
  function FirstStruck(roster: seq<Enemy>, at: Vec, collide: (Vec, Vec) -> bool): (k: nat)
    reads roster`alive, roster`pos
    ensures k <= |roster|
    ensures forall j :: 0 <= j < k ==> !(roster[j].alive && collide(at, roster[j].pos))
    ensures k < |roster| ==> roster[k].alive && collide(at, roster[k].pos)
  {
    if roster == [] then 0
    else if roster[0].alive && collide(at, roster[0].pos) then 0
    else 1 + FirstStruck(roster[1..], at, collide)
  }

  /** A projectile at `at` touches no live enemy of `roster`: the test
      `check_projectile_hits` makes of a projectile before leaving it in
      its group. */
  predicate Missed(roster: seq<Enemy>, at: Vec, collide: (Vec, Vec) -> bool)
    reads roster`alive, roster`pos
  {
    forall e :: e in roster && e.alive ==> !collide(at, e.pos)
  }

  /** `Level(self, n)` as the game uses it: a new level with that number,
      whose start point and enemy spawn points are on open ground. */
  method OpenLevel(n: int, rng: Rng) returns (l: Level)
    modifies rng
    ensures fresh(l) && fresh(l.tiles) && l.levelNumber == n && l.Valid()
    ensures !l.IsWallAt(l.playerPos.x, l.playerPos.y)
    ensures forall k :: 0 <= k < |l.enemySpawns| ==> !l.IsWallAt(l.enemySpawns[k].x, l.enemySpawns[k].y)
  {
    l := new Level(n, rng);
  }

  class Game {
    var currentLevel: int
    var score: int
    var level: Level
    const player: Player
    /** `game.enemies`. */
    const groups: Groups
    /** `player.weapons.values()`: the weapons whose projectile groups are
        checked for hits. Nothing in the code fills it, so it starts empty. */
    var weapons: seq<Weapon>

    /** What every operation of the game keeps: a valid player, a valid
        level and a roster of valid enemies, each held once, as a sprite
        group holds it. */
    ghost predicate Valid()
      reads this, player, level, groups, groups.enemies
    {
      player.Valid() && level.Valid() && Distinct(groups.enemies) && forall e :: e in groups.enemies ==> e.Valid()
    }

    /** The game has just entered level n: the level carries that number,
        the player stands on its start point, which is also the respawn
        anchor, and the roster is one fresh melee enemy per spawn point of
        the level, in order, every one on open ground. */
    ghost predicate Entered(n: int)
      reads this, player, level, level.tiles, groups, groups.enemies
    {
      Valid() && currentLevel == n && level.levelNumber == n &&
      player.pos == level.playerPos && player.spawnPosition == level.playerPos &&
      !level.IsWallAt(player.pos.x, player.pos.y) &&
      (forall k :: 0 <= k < |level.enemySpawns| ==> !level.IsWallAt(level.enemySpawns[k].x, level.enemySpawns[k].y)) &&
      |groups.enemies| == |level.enemySpawns| &&
      (forall k :: 0 <= k < |groups.enemies| ==> Spawned(groups.enemies[k], level.enemySpawns[k]))
    }

    /** `Game()`: level 1 is generated, its enemies are created at its
        spawn points, and the player is put on its start point. */
    constructor (rng: Rng)
      modifies rng
      ensures Entered(1) && score == 0 && weapons == []
      ensures fresh(level) && fresh(player) && fresh(groups)
      ensures forall e :: e in groups.enemies ==> fresh(e)
    {
      currentLevel := 1;
      score := 0;
      groups := new Groups();
      var l := OpenLevel(1, rng);
      var p := new Player();
      p.pos := l.playerPos;
      p.spawnPosition := p.pos;
      level, player := l, p;
      weapons := [];
      new;
      Populate();
    }

    /** `create_enemy` for each spawn point of the level, in order: a melee
        enemy at each is added to the roster. */
    method Populate()
      requires Distinct(groups.enemies) && forall e :: e in groups.enemies ==> e.Valid()
      modifies groups`enemies
      ensures |groups.enemies| == |old(groups.enemies)| + |level.enemySpawns|
      ensures groups.enemies[..|old(groups.enemies)|] == old(groups.enemies)
      ensures forall j :: |old(groups.enemies)| <= j < |groups.enemies| ==>
                fresh(groups.enemies[j]) && Spawned(groups.enemies[j], level.enemySpawns[j - |old(groups.enemies)|])
      ensures Distinct(groups.enemies) && forall e :: e in groups.enemies ==> e.Valid()
    {
      ghost var before := groups.enemies;
      for k := 0 to |level.enemySpawns|
        invariant |groups.enemies| == |before| + k && groups.enemies[..|before|] == before
        invariant forall j :: |before| <= j < |groups.enemies| ==>
                    fresh(groups.enemies[j]) && Spawned(groups.enemies[j], level.enemySpawns[j - |before|])
        invariant Distinct(groups.enemies) && forall e :: e in groups.enemies ==> e.Valid()
      {
        var enemy := new Enemy(Melee, level.enemySpawns[k]);
        assert enemy !in groups.enemies;
        groups.enemies := groups.enemies + [enemy];
      }
    }

    /** `next_level`: the level number goes up by one, every enemy of the
        old roster is killed, the next level is generated with its own
        enemies, and the player and the respawn anchor move to its start. */
    method NextLevel(rng: Rng)
      requires Valid()
      modifies this`currentLevel, this`level, groups`enemies, player`pos, player`spawnPosition, rng
      ensures Entered(old(currentLevel) + 1)
      ensures fresh(level) && forall e :: e in groups.enemies ==> fresh(e)
      ensures forall e :: e in old(groups.enemies) ==> e !in groups.enemies
    {
      currentLevel := currentLevel + 1;
      groups.enemies := [];
      level := OpenLevel(currentLevel, rng);
      Populate();
      player.pos := level.playerPos;
      player.spawnPosition := player.pos;
    }

    /** The checkpoint and portal branch of `update`: touching a checkpoint
        makes it the level's active one and the player's respawn anchor;
        reaching the portal (checked at the same, unmoved position) moves
        the game to the next level. */
    method Arrive(rng: Rng) returns (checkpoint: bool, portal: bool)
      requires Valid()
      modifies level`activeCheckpoint, this`currentLevel, this`level, groups`enemies, player`pos,
               player`spawnPosition, rng
      ensures Valid()
      ensures checkpoint <==> old(FirstNear(level.checkpoints, player.pos) < |level.checkpoints|)
      ensures checkpoint ==>
                old(level).activeCheckpoint == Some(old(level.checkpoints[FirstNear(level.checkpoints, player.pos)]))
      ensures !checkpoint ==> old(level).activeCheckpoint == old(level.activeCheckpoint)
      ensures checkpoint && !portal ==>
                player.spawnPosition == old(level.checkpoints[FirstNear(level.checkpoints, player.pos)])
      ensures !checkpoint && !portal ==> player.spawnPosition == old(player.spawnPosition)
      ensures portal <==> old(level.PortalReached(player.pos))
      ensures portal ==> Entered(old(currentLevel) + 1) && fresh(level)
      ensures !portal ==> level == old(level) && currentLevel == old(currentLevel) &&
                          player.pos == old(player.pos) && groups.enemies == old(groups.enemies)
    {
      checkpoint := level.CheckCheckpointCollision(player.pos);
      if checkpoint {
        player.spawnPosition := level.activeCheckpoint.value;
      }
      portal := level.PortalReached(player.pos);
      if portal {
        NextLevel(rng);
      }
    }

    /** The search of `spritecollide` followed by the skip of dead enemies:
        the index of the enemy a projectile at `at` strikes. */
    method FindTarget(at: Vec, collide: (Vec, Vec) -> bool) returns (k: nat)
      ensures k == FirstStruck(groups.enemies, at, collide)
    {
      k := 0;
      while k < |groups.enemies| && !(groups.enemies[k].alive && collide(at, groups.enemies[k].pos))
        invariant k <= |groups.enemies|
        invariant forall j :: 0 <= j < k ==> !(groups.enemies[j].alive && collide(at, groups.enemies[j].pos))
      {
        k := k + 1;
      }
    }

    /** One projectile of `check_projectile_hits`: the first live enemy it
        touches takes the weapon's damage, a kill is worth
        `ENEMY_XP_REWARD`, and the projectile is removed right after that
        one hit. With no live enemy touched, nothing changes. */
    method HitOne(w: Weapon, p: Projectile, now: int, collide: (Vec, Vec) -> bool, ghost roster: seq<Enemy>)
      returns (target: Enemy?, killed: bool)
      requires Valid() && w.kind != Heal && forall e :: e in groups.enemies ==> e in roster
      modifies w`projectiles, groups`enemies, player`level, player`xp, player`xpToNextLevel
      modifies roster`currentHp, roster`isHit, roster`hitTime, roster`alive
      ensures Valid()
      ensures var k := old(FirstStruck(groups.enemies, p.pos, collide));
              (target == null <==> k == old(|groups.enemies|)) &&
              (target != null ==> k < old(|groups.enemies|) && target == old(groups.enemies[k]))
      ensures target == null ==> !killed && w.projectiles == old(w.projectiles) && groups.enemies == old(groups.enemies)
      ensures target == null ==> Missed(groups.enemies, p.pos, collide)
      ensures |groups.enemies| == |old(groups.enemies)| - if killed then 1 else 0
      ensures target != null ==> w.projectiles == Without(old(w.projectiles), p)
      ensures target != null ==> (killed <==> old(target.currentHp) - Damage(w.kind) as real <= 0.0)
      ensures target != null ==> target.currentHp == if killed then 0.0 else old(target.currentHp) - Damage(w.kind) as real
      ensures killed ==> target != null && groups.enemies == Without<Enemy>(old(groups.enemies), target)
      ensures target != null && !killed ==> groups.enemies == old(groups.enemies)
      ensures forall e :: e in roster && e != target ==> e.currentHp == old(e.currentHp)
      ensures target != null ==> 0.0 <= target.currentHp < old(target.currentHp)
      ensures target != null ==> target.Valid() && target.isHit && target.hitTime == now && (target.alive <==> !killed)
      ensures forall e :: e in roster && e != target ==> unchanged(e)
      ensures player.Standing() == Rewards(old(player.Standing()), if killed then 1 else 0)
      ensures forall e :: e in roster ==> e.currentHp <= old(e.currentHp)
      ensures forall e :: e in groups.enemies ==> e in old(groups.enemies)
      ensures |w.projectiles| <= |old(w.projectiles)| && forall q :: q in w.projectiles ==> q in old(w.projectiles)
    {
      var k := FindTarget(p.pos, collide);
      if k == |groups.enemies| {
        return null, false;
      }
      target := groups.enemies[k];
      assert target in roster;
      killed := Land(w, p, target, now);
    }

    /** The hit itself: `take_damage` with the weapon's damage, the kill
        reward when it reports a kill, then `projectile.kill()`. */
    method Land(w: Weapon, p: Projectile, target: Enemy, now: int) returns (killed: bool)
      requires Valid() && w.kind != Heal && target in groups.enemies
      modifies w`projectiles, groups`enemies, player`level, player`xp, player`xpToNextLevel
      modifies target`currentHp, target`isHit, target`hitTime, target`alive
      ensures Valid()
      ensures killed <==> old(target.currentHp) - Damage(w.kind) as real <= 0.0
      ensures target.currentHp == if killed then 0.0 else old(target.currentHp) - Damage(w.kind) as real
      ensures killed ==> groups.enemies == Without(old(groups.enemies), target)
      ensures !killed ==> groups.enemies == old(groups.enemies)
      ensures |groups.enemies| == |old(groups.enemies)| - if killed then 1 else 0
      ensures w.projectiles == Without(old(w.projectiles), p)
      ensures player.Standing() == Rewards(old(player.Standing()), if killed then 1 else 0)
      ensures target.Valid() && target.isHit && target.hitTime == now
      ensures killed ==> !target.alive
      ensures !killed ==> target.alive == old(target.alive)
    {
      ghost var before := groups.enemies;
      killed := target.TakeDamage(Damage(w.kind) as real, now, groups);
      if killed {
        WithoutMember(before, target);
        player.GainXp(EnemyXpReward);
      }
      w.projectiles := Without(w.projectiles, p);
    }

    /** Every enemy of `roster` that has left the group was killed: it is
        dead, at 0 hp. */
    ghost predicate Buried(roster: seq<Enemy>)
      reads this, groups, roster
    {
      forall e :: e in roster && e !in groups.enemies ==> !e.alive && e.currentHp == 0.0
    }

    /** One projectile of `Volley`'s loop: `HitOne`, stated as the loop
        uses it. A kill takes one enemy out of the group and is worth one
        reward; the enemies that left the group stay dead; no enemy comes
        back to life or moves, so a projectile of `settled` that touched no
        live enemy of the group still touches none; and the projectile
        stays in its group only when it touched none. */
    method Shoot(w: Weapon, p: Projectile, now: int, collide: (Vec, Vec) -> bool, ghost roster: seq<Enemy>,
                 ghost settled: set<Projectile>)
      returns (killed: bool)
      requires Valid() && w.kind != Heal && forall e :: e in groups.enemies ==> e in roster
      requires Buried(roster) && forall q :: q in settled ==> Missed(groups.enemies, q.pos, collide)
      modifies w`projectiles, groups`enemies, player`level, player`xp, player`xpToNextLevel
      modifies roster`currentHp, roster`isHit, roster`hitTime, roster`alive
      ensures Valid() && Buried(roster)
      ensures player.Standing() == Rewards(old(player.Standing()), if killed then 1 else 0)
      ensures forall e :: e in groups.enemies ==> e in old(groups.enemies)
      ensures |groups.enemies| == |old(groups.enemies)| - if killed then 1 else 0
      ensures forall e :: e in roster ==> e.currentHp <= old(e.currentHp)
      ensures |w.projectiles| <= |old(w.projectiles)| && forall q :: q in w.projectiles ==> q in old(w.projectiles)
      ensures forall q :: q in settled ==> Missed(groups.enemies, q.pos, collide)
      ensures p in w.projectiles ==> Missed(groups.enemies, p.pos, collide)
    {
      var target;
      target, killed := HitOne(w, p, now, collide, roster);
    }

    /** The projectiles of one weapon, in the order of its group (a copy,
        since a hit removes the projectile from the group). Each kill takes
        one enemy out of the group and is worth one reward, and the
        enemies that left stay dead at 0 hp. Every projectile left in the
        group joins `settled`: it touches no live enemy left in the group,
        and neither does any projectile settled before. */
    method Volley(w: Weapon, now: int, collide: (Vec, Vec) -> bool, ghost roster: seq<Enemy>,
                  ghost settled: set<Projectile>)
      returns (kills: nat, ghost settledAfter: set<Projectile>)
      requires Valid() && (w.kind != Heal || w.projectiles == []) && forall e :: e in groups.enemies ==> e in roster
      requires Buried(roster) && forall q :: q in settled ==> Missed(groups.enemies, q.pos, collide)
      modifies w`projectiles, groups`enemies, player`level, player`xp, player`xpToNextLevel
      modifies roster`currentHp, roster`isHit, roster`hitTime, roster`alive
      ensures Valid() && Buried(roster)
      ensures player.Standing() == Rewards(old(player.Standing()), kills)
      ensures forall e :: e in groups.enemies ==> e in old(groups.enemies)
      ensures |groups.enemies| + kills == |old(groups.enemies)|
      ensures forall e :: e in roster ==> e.currentHp <= old(e.currentHp)
      ensures |w.projectiles| <= |old(w.projectiles)| && forall p :: p in w.projectiles ==> p in old(w.projectiles)
      ensures settled <= settledAfter && forall p :: p in w.projectiles ==> p in settledAfter
      ensures forall q :: q in settledAfter ==> Missed(groups.enemies, q.pos, collide)
    {
      ghost var start := groups.enemies;
      ghost var standing := player.Standing();
      var shots := w.projectiles;
      kills, settledAfter := 0, settled;
      for j := 0 to |shots|
        invariant Valid() && Buried(roster) && player.Standing() == Rewards(standing, kills)
        invariant forall e :: e in groups.enemies ==> e in start
        invariant |groups.enemies| + kills == |start|
        invariant forall e :: e in roster ==> e.currentHp <= old(e.currentHp)
        invariant |w.projectiles| <= |shots| && forall p :: p in w.projectiles ==> p in shots
        invariant settled <= settledAfter && forall q :: q in settledAfter ==> Missed(groups.enemies, q.pos, collide)
        invariant forall q :: q in shots[..j] && q in w.projectiles ==> q in settledAfter
      {
        var killed := Shoot(w, shots[j], now, collide, roster, settledAfter);
        if killed {
          kills := kills + 1;
        }
        if shots[j] in w.projectiles {
          settledAfter := settledAfter + {shots[j]};
        }
        assert shots[..j + 1] == shots[..j] + [shots[j]];
      }
    }

    /** `check_projectile_hits`: every projectile of every weapon, in
        order, goes through `HitOne`. Each kill takes one enemy out of the
        roster at 0 hp and is worth one reward; no enemy joins the roster
        or gains hp, no projectile joins a weapon's group, and every
        projectile left in a group touches no live enemy left in the
        roster. A heal, which has no damage, never has projectiles to
        check. */
    method CheckProjectileHits(now: int, collide: (Vec, Vec) -> bool) returns (kills: nat)
      requires Valid()
      requires forall i :: 0 <= i < |weapons| && weapons[i].kind == Heal ==> weapons[i].projectiles == []
      modifies weapons`projectiles, groups`enemies, player`level, player`xp, player`xpToNextLevel
      modifies groups.enemies`currentHp, groups.enemies`isHit, groups.enemies`hitTime, groups.enemies`alive
      ensures Valid()
      ensures player.Standing() == Rewards(old(player.Standing()), kills)
      ensures forall e :: e in groups.enemies ==> e in old(groups.enemies)
      ensures |groups.enemies| + kills == |old(groups.enemies)|
      ensures forall e :: e in old(groups.enemies) && e !in groups.enemies ==> !e.alive && e.currentHp == 0.0
      ensures forall e :: e in old(groups.enemies) ==> e.currentHp <= old(e.currentHp)
      ensures forall i, p :: 0 <= i < |weapons| && p in weapons[i].projectiles ==> p in old(weapons[i].projectiles)
      ensures forall i, p :: 0 <= i < |weapons| && p in weapons[i].projectiles ==> Missed(groups.enemies, p.pos, collide)
    {
      ghost var roster := groups.enemies;
      ghost var standing := player.Standing();
      ghost var settled: set<Projectile> := {};
      kills := 0;
      for i := 0 to |weapons|
        invariant Valid() && Buried(roster) && player.Standing() == Rewards(standing, kills)
        invariant forall e :: e in groups.enemies ==> e in roster
        invariant |groups.enemies| + kills == |roster|
        invariant forall e :: e in roster ==> e.currentHp <= old(e.currentHp)
        invariant forall k, p :: 0 <= k < |weapons| && p in weapons[k].projectiles ==> p in old(weapons[k].projectiles)
        invariant forall q :: q in settled ==> Missed(groups.enemies, q.pos, collide)
        invariant forall k, p :: 0 <= k < i && p in weapons[k].projectiles ==> p in settled
      {
        assert weapons[i].projectiles != [] ==> weapons[i].projectiles[0] in weapons[i].projectiles;
        var more;
        more, settled := Volley(weapons[i], now, collide, roster, settled);
        RewardsCompose(standing, kills, more);
        kills := kills + more;
      }
    }
  }
}
