/** The enemies (enemy.py): the three archetypes and their stats, the AI
    state machine (the throttled priority rule of `update_state` and the
    per-state handlers), damage and death, the cooldown-gated attack on the
    player, and the wall and crowd probes. Time is the explicit `now`;
    square roots the source takes are passed in as the value they return. */
module Enemies {
  import opened Settings
  import opened Geometry
  import opened Wrappers
  import opened LevelMap
  import opened Players

  /** `ENEMY_SIZE // 2`: every enemy is a disc of radius 24. */
  const EnemyRadius: real := 24.0
  /** `update_state` acts at most once every 100 ms. */
  const StateInterval: int := 100
  /** `ENEMY_WANDER_RADIUS`. */
  const WanderRadius: real := 100.0
  /** `ENEMY_FLEE_HP_THRESHOLD * 1.5` as the double it evaluates to. */
  const FleeRecovery: real := 0.44999999999999996

  // ---------------------------------------------------------------------
  // Archetypes

  datatype Kind = Melee | Ranged | Tank

  datatype Stats = Stats(maxHp: real, speed: real, attackRange: real, attackDamage: real)

  /** The stats the archetype constructors set over the base ones: ranged
      enemies are frailer and slower with twice the reach, tanks have twice
      the hp and less reach. */
  function StatsOf(kind: Kind): (s: Stats)
    ensures s.maxHp > 0.0 && s.speed > 0.0 && s.attackRange > 0.0 && s.attackDamage > 0.0
  {
    match kind
    case Melee => Stats(EnemyHp, EnemySpeed, EnemyAttackRange, EnemyAttackDamage as real)
    case Ranged => Stats(EnemyHp * 0.8, EnemySpeed * 0.8, EnemyAttackRange * 2.0, EnemyAttackDamage as real * 0.7)
    case Tank => Stats(EnemyHp * 2.0, EnemySpeed * 0.6, EnemyAttackRange * 0.8, EnemyAttackDamage as real * 1.5)
  }

  /** Every archetype starts at `ENEMY_HP` whatever its maximum, so a fresh
      ranged enemy is above its maximum and a fresh tank at half of it; a
      fresh enemy of any archetype is not fleeing. */
  lemma FreshHealth(kind: Kind)
    ensures kind == Melee ==> EnemyHp == StatsOf(kind).maxHp
    ensures kind == Ranged ==> EnemyHp == 1.25 * StatsOf(kind).maxHp
    ensures kind == Tank ==> EnemyHp == 0.5 * StatsOf(kind).maxHp
    ensures EnemyHp > EnemyFleeHpThreshold * StatsOf(kind).maxHp
  {
  }

  // ---------------------------------------------------------------------
  // The state machine

  datatype AiState = Idle | Patrol | Chase | Attack | Flee | Stunned | Wander

  /** The priority rule of `update_state`, on the hp fraction and the
      squared distance to the player. It uses the global attack range,
      whatever the archetype's own. */
  function ChooseState(ratio: real, distSq: real): AiState
  {
    if ratio <= EnemyFleeHpThreshold then Flee
    else if distSq <= EnemyAttackRange * EnemyAttackRange then Attack
    else if distSq <= EnemyAggroRange * EnemyAggroRange then Chase
    else Wander
  }

  /** How engaged a state is: attacking, chasing, wandering. */
  function Engagement(s: AiState): nat
  {
    match s
    case Attack => 2
    case Chase => 1
    case _ => 0
  }

  /** The rule only ever picks flee, attack, chase or wander: idle, patrol
      and stunned are never chosen by it. */
  lemma ChooseStateRange(ratio: real, distSq: real)
    ensures ChooseState(ratio, distSq) in {Flee, Attack, Chase, Wander}
    ensures ChooseState(ratio, distSq) == Flee <==> ratio <= EnemyFleeHpThreshold
  {
  }

  /** A healthy enemy is at least as engaged with a nearer player: moving
      closer never turns an attack into a chase or a chase into wandering. */
  lemma CloserIsMoreEngaged(ratio: real, near: real, far: real)
    requires ratio > EnemyFleeHpThreshold && near <= far
    ensures Engagement(ChooseState(ratio, near)) >= Engagement(ChooseState(ratio, far))
  {
  }

  /** Because the rule uses the global 40-pixel range, a healthy ranged
      enemy anywhere in the band where `chase_state` puts it into attack
      (from 0.8 times its 80-pixel range up to that range) is put back to
      chasing by `update_state`. */
  lemma RangedAttackBand(ratio: real, distSq: real)
    requires ratio > EnemyFleeHpThreshold
    requires var r := StatsOf(Ranged).attackRange; (0.8 * r) * (0.8 * r) <= distSq <= r * r
    ensures ChooseState(ratio, distSq) == Chase
  {
  }

  /** The outcome of a handler: it ran to its end, or it raised. */
  datatype Outcome = Completed | RaisedIndexError | RaisedValueError | RaisedAttributeError

  /** `get_direction_to_player`: the unit vector towards the target, with
      `dist` the distance the source takes with a square root, or zero when
      the two coincide. */
  function DirectionTo(from: Vec, to: Vec, dist: real): Vec
  {
    if dist == 0.0 then Zero else Vec((to.x - from.x) / dist, (to.y - from.y) / dist)
  }

  // ---------------------------------------------------------------------
  // The roster

  /** The sprite group enemies act on: `game.enemies`, in insertion order. */
  class Groups {
    var enemies: seq<Enemy>

    constructor ()
      ensures enemies == []
    {
      enemies := [];
    }
  }

  /** A live enemy other than self whose disc overlaps the disc of radius
      24 centred at c. */
  predicate Touches(self: Enemy, c: Vec, other: Enemy)
    reads other
  {
    other != self && other.alive && DistSq(c, other.pos) < (2.0 * EnemyRadius) * (2.0 * EnemyRadius)
  }

  // ---------------------------------------------------------------------
  // An enemy

  class Enemy {
    const kind: Kind
    const spawnPosition: Vec
    /** `rect.center`, which `position` mirrors. */
    var pos: Vec
    var maxHp: real
    var currentHp: real
    var alive: bool
    var isHit: bool
    var hitTime: int
    var state: AiState
    var lastAttackTime: int
    var lastStateUpdate: int
    var stunDuration: int
    var patrolPoints: seq<Vec>
    var currentPatrolIndex: int
    var speed: real
    var attackRange: real
    var attackDamage: real
    var velocity: Vec
    var knockback: Vec

    /** What the enemy's methods keep: a positive maximum and reach, hp
        never negative and positive while alive, the patrol index inside the
        patrol list, and a state that is never idle or patrol (nothing in
        the code ever sets those two). */
    ghost predicate Valid()
      reads this
    {
      maxHp > 0.0 && attackRange > 0.0 && 0.0 <= currentHp && (alive ==> currentHp > 0.0) &&
      0 <= currentPatrolIndex && (patrolPoints == [] ==> currentPatrolIndex == 0) &&
      (patrolPoints != [] ==> currentPatrolIndex < |patrolPoints|) &&
      state != Idle && state != Patrol
    }

    /** `MeleeEnemy`, `RangedEnemy` or `TankEnemy` at (x, y): the archetype's
        stats over the base ones, hp at `ENEMY_HP`, wandering. */
    constructor (kind: Kind, at: Vec)
      ensures Valid() && this.kind == kind && spawnPosition == at && pos == at
      ensures maxHp == StatsOf(kind).maxHp && speed == StatsOf(kind).speed
      ensures attackRange == StatsOf(kind).attackRange && attackDamage == StatsOf(kind).attackDamage
      ensures currentHp == EnemyHp && alive && !isHit && state == Wander
      ensures lastAttackTime == 0 && lastStateUpdate == 0 && stunDuration == 0
      ensures patrolPoints == [] && currentPatrolIndex == 0 && velocity == Zero && knockback == Zero
    {
      this.kind := kind;
      spawnPosition := at;
      pos := at;
      var s := StatsOf(kind);
      maxHp, currentHp := s.maxHp, EnemyHp;
      speed, attackRange, attackDamage := s.speed, s.attackRange, s.attackDamage;
      alive, isHit, hitTime := true, false, 0;
      state, lastAttackTime, lastStateUpdate, stunDuration := Wander, 0, 0, 0;
      patrolPoints, currentPatrolIndex := [], 0;
      velocity, knockback := Zero, Zero;
    }

    /** `update_state(player)`: within 100 ms of the last update nothing
        happens; otherwise the update is stamped and the state is chosen by
        the priority rule from the hp fraction and the distance to the
        player at `target`. */
    method UpdateState(now: int, target: Vec)
      requires Valid()
      modifies this`state, this`lastStateUpdate
      ensures Valid()
      ensures now - old(lastStateUpdate) < StateInterval ==>
                state == old(state) && lastStateUpdate == old(lastStateUpdate)
      ensures now - old(lastStateUpdate) >= StateInterval ==>
                lastStateUpdate == now && state == ChooseState(currentHp / maxHp, DistSq(pos, target))
    {
      if now - lastStateUpdate < StateInterval {
        return;
      }
      lastStateUpdate := now;
      ChooseStateRange(currentHp / maxHp, DistSq(pos, target));
      state := ChooseState(currentHp / maxHp, DistSq(pos, target));
    }

    /** `take_damage(amount)`: hp drops and is clamped at zero; at zero the
        enemy dies and is removed from the roster. The result says it is
        dead, so it is true again on every later hit of a dead enemy. */
    method TakeDamage(amount: real, now: int, groups: Groups) returns (killed: bool)
      requires Valid()
      modifies this`currentHp, this`isHit, this`hitTime, this`alive, groups`enemies
      ensures Valid()
      ensures killed <==> old(currentHp) - amount <= 0.0
      ensures currentHp == if killed then 0.0 else old(currentHp) - amount
      ensures isHit && hitTime == now
      ensures killed ==> !alive && groups.enemies == Without(old(groups.enemies), this)
      ensures !killed ==> alive == old(alive) && groups.enemies == old(groups.enemies)
      ensures old(currentHp) == 0.0 && amount >= 0.0 ==> killed
    {
      currentHp := currentHp - amount;
      isHit := true;
      hitTime := now;
      if currentHp <= 0.0 {
        currentHp := 0.0;
        alive := false;
        groups.enemies := Without(groups.enemies, this);
        return true;
      }
      return false;
    }

    /** `apply_stun(duration)`: stunned until now + duration. */
    method ApplyStun(now: int, duration: int)
      requires Valid()
      modifies this`state, this`stunDuration
      ensures Valid() && state == Stunned && stunDuration == now + duration
    {
      state := Stunned;
      stunDuration := now + duration;
    }

    /** `idle_state`: a player within the aggro range is chased. No enemy
        is ever idle (the constructor starts it wandering and no handler goes
        back to `Idle`), so `Valid()` excludes that state and this handler is
        described only for an enemy in one of the states it can be in; in
        the game it never runs. */
    method IdleState(target: Vec)
      requires Valid()
      modifies this`state
      ensures Valid()
      ensures state == if DistSq(pos, target) <= EnemyAggroRange * EnemyAggroRange then Chase else old(state)
    {
      if DistSq(pos, target) <= EnemyAggroRange * EnemyAggroRange {
        state := Chase;
      }
    }

    /** `patrol_state`: an empty patrol list is first filled with the points
        `generate_patrol_points` keeps (`generated`); then the current point
        is the goal, the index moves on cyclically within a tile of it, and
        a player within the aggro range is chased. An empty list raises
        IndexError and a goal on the enemy's own centre raises ValueError
        (normalising a zero vector); both stop the handler. The velocity it
        sets is recomputed by `update_movement` before any use. As with
        `IdleState`, no enemy ever patrols, so `Valid()` excludes `Patrol`
        and this handler is described only for an enemy in one of the
        states it can be in; in the game it never runs. */
    method PatrolState(target: Vec, generated: seq<Vec>) returns (outcome: Outcome)
      requires Valid()
      modifies this`patrolPoints, this`currentPatrolIndex, this`state
      ensures Valid()
      ensures patrolPoints == if old(patrolPoints) == [] then generated else old(patrolPoints)
      ensures patrolPoints == [] ==>
                outcome == RaisedIndexError && currentPatrolIndex == old(currentPatrolIndex) && state == old(state)
      ensures patrolPoints != [] && patrolPoints[old(currentPatrolIndex)] == pos ==>
                outcome == RaisedValueError && currentPatrolIndex == old(currentPatrolIndex) && state == old(state)
      ensures patrolPoints != [] && patrolPoints[old(currentPatrolIndex)] != pos ==>
                outcome == Completed &&
                currentPatrolIndex == (if DistSq(pos, patrolPoints[old(currentPatrolIndex)]) < (TileSize * TileSize) as real
                                       then (old(currentPatrolIndex) + 1) % |patrolPoints|
                                       else old(currentPatrolIndex)) &&
                state == (if DistSq(pos, target) <= EnemyAggroRange * EnemyAggroRange then Chase else old(state))
    {
      if patrolPoints == [] {
        patrolPoints := generated;
      }
      if patrolPoints == [] {
        return RaisedIndexError;
      }
      var goal := patrolPoints[currentPatrolIndex];
      if goal == pos {
        return RaisedValueError;
      }
      if DistSq(pos, goal) < (TileSize * TileSize) as real {
        currentPatrolIndex := (currentPatrolIndex + 1) % |patrolPoints|;
      }
      if DistSq(pos, target) <= EnemyAggroRange * EnemyAggroRange {
        state := Chase;
      }
      return Completed;
    }

    /** `chase_state`: the enemy starts attacking exactly when the player is
        between 0.8 and 1 times its own attack range; nearer it backs off
        and farther it closes in, both by a velocity `update_movement`
        recomputes before use. */
    method ChaseState(target: Vec)
      requires Valid()
      modifies this`state
      ensures Valid()
      ensures (0.8 * attackRange) * (0.8 * attackRange) <= DistSq(pos, target) <= attackRange * attackRange ==>
                state == Attack
      ensures !((0.8 * attackRange) * (0.8 * attackRange) <= DistSq(pos, target) <= attackRange * attackRange) ==>
                state == old(state)
    {
      var d := DistSq(pos, target);
      if d > attackRange * attackRange {
      } else if d < (0.8 * attackRange) * (0.8 * attackRange) {
      } else {
        state := Attack;
      }
    }

    /** `flee_state`: the enemy returns to the chase once its hp fraction is
        above 1.5 times the flee threshold. The flee velocity is left to
        `update_movement`. */
    method FleeState()
      requires Valid()
      modifies this`state
      ensures Valid()
      ensures state == if currentHp / maxHp > FleeRecovery then Chase else old(state)
    {
      if currentHp / maxHp > FleeRecovery {
        state := Chase;
      }
    }

    /** `stunned_state`: the enemy stands still, and chases again once the
        stun has run out. */
    method StunnedState(now: int)
      requires Valid()
      modifies this`state, this`velocity
      ensures Valid() && velocity == Zero
      ensures state == if now >= stunDuration then Chase else old(state)
    {
      if now >= stunDuration {
        state := Chase;
      }
      velocity := Zero;
    }

    /** `try_attack(player)` of the melee and tank archetypes, and the ranged
        override. When attacking with the cooldown over, the attack is
        stamped now; a melee or tank enemy then deals `ENEMY_ATTACK_DAMAGE`
        (not its own damage) and, only if the player took it, knocks the
        player back along the direction to the player with
        `ENEMY_KNOCKBACK_FORCE`. The ranged override, after stamping, adds
        a `Projectile` to `game.projectiles`, an attribute `Game` does not
        have (and a class `enemy.py` does not define): it raises, leaving
        the player as it was. `dist` is the distance to the player. */
    method TryAttack(now: int, player: Player, dist: real) returns (outcome: Outcome)
      requires Valid() && player.Valid()
      requires dist >= 0.0 && dist * dist == DistSq(pos, player.pos)
      modifies this`lastAttackTime
      modifies player`hp, player`isInvulnerable, player`invulnerableTime, player`alive, player`deathTime,
               player`isAttacking, player`isDashing, player`knockback, player`velocityX, player`velocityY
      ensures Valid() && player.Valid()
      ensures var acts := state == Attack && now - old(lastAttackTime) >= EnemyAttackCooldown;
              (outcome == RaisedAttributeError <==> acts && kind == Ranged) &&
              (outcome != RaisedAttributeError ==> outcome == Completed) &&
              (acts ==> lastAttackTime == now) &&
              (!acts ==> lastAttackTime == old(lastAttackTime) && unchanged(player)) &&
              (acts && kind == Ranged ==> unchanged(player)) &&
              (acts && kind != Ranged ==> player.pos == old(player.pos))
      ensures var hits := state == Attack && now - old(lastAttackTime) >= EnemyAttackCooldown && kind != Ranged &&
                          !old(player.isInvulnerable) && old(player.alive);
              (hits ==> player.hp == (if old(player.hp) - EnemyAttackDamage <= 0 then 0 else old(player.hp) - EnemyAttackDamage) &&
                        player.isInvulnerable && player.invulnerableTime == now &&
                        (player.alive <==> old(player.hp) - EnemyAttackDamage > 0) &&
                        player.knockback == DirectionTo(pos, old(player.pos), dist).Scale(EnemyKnockbackForce)) &&
              (hits && !player.alive ==> player.deathTime == now && !player.isAttacking && !player.isDashing &&
                                         player.velocityX == 0.0 && player.velocityY == 0.0) &&
              (hits && player.alive ==> player.deathTime == old(player.deathTime) &&
                                        player.isAttacking == old(player.isAttacking) &&
                                        player.isDashing == old(player.isDashing) &&
                                        player.velocityX == old(player.velocityX) &&
                                        player.velocityY == old(player.velocityY)) &&
              (!hits ==> unchanged(player))
    {
      outcome := Completed;
      if state == Attack && now - lastAttackTime >= EnemyAttackCooldown {
        lastAttackTime := now;
        var direction := DirectionTo(pos, player.pos, dist);
        if kind == Ranged {
          outcome := RaisedAttributeError;
        } else {
          var applied := player.TakeDamage(EnemyAttackDamage, now);
          if applied {
            player.ApplyKnockback(direction, EnemyKnockbackForce);
          }
        }
      }
    }

    /** `attack_state`: beyond 1.2 times its own range the enemy goes back to
        chasing; otherwise it tries to attack (the small drift it adds is
        recomputed by `update_movement`). */
    method AttackState(now: int, player: Player, dist: real) returns (outcome: Outcome)
      requires Valid() && player.Valid()
      requires dist >= 0.0 && dist * dist == DistSq(pos, player.pos)
      modifies this`state, this`lastAttackTime
      modifies player`hp, player`isInvulnerable, player`invulnerableTime, player`alive, player`deathTime,
               player`isAttacking, player`isDashing, player`knockback, player`velocityX, player`velocityY
      ensures Valid() && player.Valid()
      ensures old(DistSq(pos, player.pos)) > (1.2 * attackRange) * (1.2 * attackRange) ==>
                state == Chase && lastAttackTime == old(lastAttackTime) && unchanged(player) && outcome == Completed
      ensures old(DistSq(pos, player.pos)) <= (1.2 * attackRange) * (1.2 * attackRange) ==>
                state == old(state) &&
                lastAttackTime == (if state == Attack && now - old(lastAttackTime) >= EnemyAttackCooldown
                                   then now else old(lastAttackTime)) &&
                (outcome == RaisedAttributeError <==>
                   state == Attack && now - old(lastAttackTime) >= EnemyAttackCooldown && kind == Ranged)
    {
      if DistSq(pos, player.pos) > (1.2 * attackRange) * (1.2 * attackRange) {
        state := Chase;
        outcome := Completed;
      } else {
        outcome := TryAttack(now, player, dist);
      }
    }

    /** `collide_with_walls(dx, dy)`: one of the nine probe points of the
        48-pixel box moved by (dx, dy) is on a wall. */
    method CollideWithWalls(lvl: Level, dx: real, dy: real) returns (hit: bool)
      requires lvl.Valid()
      ensures hit <==> lvl.WallAmong(ProbePoints(pos, EnemyRadius, Vec(dx, dy)))
    {
      hit := lvl.FindWall(ProbePoints(pos, EnemyRadius, Vec(dx, dy)));
    }

    /** `collide_with_enemies(dx, dy, game)`: without a game there is no
        collision; otherwise the moved disc overlaps some other live enemy
        of the roster, the centre distance strictly below the sum of the
        radii. */
    method CollideWithEnemies(dx: real, dy: real, groups: Groups?) returns (hit: bool)
      ensures groups == null ==> !hit
      ensures groups != null ==>
                (hit <==> exists i :: 0 <= i < |groups.enemies| && Touches(this, pos.Plus(Vec(dx, dy)), groups.enemies[i]))
    {
      if groups == null {
        return false;
      }
      var c := pos.Plus(Vec(dx, dy));
      var others := groups.enemies;
      for i := 0 to |others|
        invariant forall j :: 0 <= j < i ==> !Touches(this, c, others[j])
      {
        var other := others[i];
        if other != this && other.alive &&
           DistSq(c, other.pos) < (2.0 * EnemyRadius) * (2.0 * EnemyRadius) {
          assert Touches(this, c, others[i]);
          return true;
        }
      }
      return false;
    }

    /** `_get_valid_wander_target`: of the ten random points drawn around the
        spawn point (`candidates`), the first that is not a wall, or the
        enemy's own position when all ten are. */
    method WanderTarget(lvl: Level, candidates: seq<Vec>) returns (goal: Vec)
      requires lvl.Valid() && |candidates| == 10
      ensures goal == if FirstClear(lvl, candidates) < |candidates| then candidates[FirstClear(lvl, candidates)] else pos
    {
      for i := 0 to |candidates|
        invariant forall j :: 0 <= j < i ==> lvl.IsWallAt(candidates[j].x, candidates[j].y)
      {
        if !lvl.IsWallAt(candidates[i].x, candidates[i].y) {
          FirstClearIs(lvl, candidates, i);
          return candidates[i];
        }
      }
      FirstClearIs(lvl, candidates, |candidates|);
      return pos;
    }
  }

  /** The index of the first point that is not a wall, or |ps|. */
  function FirstClear(lvl: Level, ps: seq<Vec>): (k: nat)
    reads lvl, lvl.tiles
    requires lvl.Valid()
    ensures k <= |ps|
    ensures forall j :: 0 <= j < k ==> lvl.IsWallAt(ps[j].x, ps[j].y)
    ensures k < |ps| ==> !lvl.IsWallAt(ps[k].x, ps[k].y)
  {
    if ps == [] then 0
    else if !lvl.IsWallAt(ps[0].x, ps[0].y) then 0
    else 1 + FirstClear(lvl, ps[1..])
  }

  /** The first clear point is the one every earlier point fails before. */
  lemma {:induction false} FirstClearIs(lvl: Level, ps: seq<Vec>, k: int)
    requires lvl.Valid() && 0 <= k <= |ps|
    requires forall j :: 0 <= j < k ==> lvl.IsWallAt(ps[j].x, ps[j].y)
    requires k < |ps| ==> !lvl.IsWallAt(ps[k].x, ps[k].y)
    ensures FirstClear(lvl, ps) == k
  {
    if k > 0 {
      FirstClearIs(lvl, ps[1..], k - 1);
    }
  }

  /** The wander target is open unless every candidate is a wall, and it
      stays within the wander radius of the spawn point whenever it is not
      the enemy's own position. */
  lemma WanderTargetOpen(lvl: Level, candidates: seq<Vec>, spawn: Vec, fallback: Vec)
    requires lvl.Valid()
    requires forall k :: 0 <= k < |candidates| ==> DistSq(candidates[k], spawn) <= WanderRadius * WanderRadius
    ensures var k := FirstClear(lvl, candidates);
            var goal := if k < |candidates| then candidates[k] else fallback;
            ((exists j :: 0 <= j < |candidates| && !lvl.IsWallAt(candidates[j].x, candidates[j].y)) ==>
               !lvl.IsWallAt(goal.x, goal.y) && DistSq(goal, spawn) <= WanderRadius * WanderRadius) &&
            ((forall j :: 0 <= j < |candidates| ==> lvl.IsWallAt(candidates[j].x, candidates[j].y)) ==> goal == fallback)
  {
  }
}
