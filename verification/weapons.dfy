/** The player's magic (weapons.py): the mana and cooldown gate every cast
    passes, the two projectile spells, the capped heal, the chained
    lightning bolt and the range-limited flight of a projectile. Time is the
    explicit `now`; the square roots and normalisations the source takes are
    passed in as the values they return. */
module Weapons {
  import opened Settings
  import opened Geometry
  import opened Wrappers
  import opened Players
  import opened Enemies

  datatype WeaponKind = Fireball | IceLance | LightningBolt | Heal

  /** `MAGIC_WEAPONS[kind]['mana_cost']`. */
  function ManaCost(kind: WeaponKind): (c: int)
    ensures c > 0
  {
    match kind
    case Fireball => 30
    case IceLance => 20
    case LightningBolt => 50
    case Heal => 40
  }

  /** `MAGIC_WEAPONS[kind]['cooldown']`, in milliseconds. */
  function Cooldown(kind: WeaponKind): (c: int)
    ensures c > 0
  {
    match kind
    case Fireball => 800
    case IceLance => 400
    case LightningBolt => 1200
    case Heal => 20000
  }

  /** `MAGIC_WEAPONS[kind]['damage']`; the heal has none. */
  function Damage(kind: WeaponKind): (d: int)
    requires kind != Heal
    ensures d > 0
  {
    match kind
    case Fireball => 40
    case IceLance => 25
    case LightningBolt => 60
  }

  /** `MAGIC_WEAPONS[kind]['projectile_speed']` of the two projectile spells. */
  function ProjectileSpeed(kind: WeaponKind): (v: real)
    requires kind == Fireball || kind == IceLance
    ensures v > 0.0
  {
    if kind == Fireball then 8.0 else 12.0
  }

  /** `MAGIC_WEAPONS[kind]['range']` of the two projectile spells. */
  function ProjectileRange(kind: WeaponKind): (r: real)
    requires kind == Fireball || kind == IceLance
    ensures r > 0.0
  {
    if kind == Fireball then 400.0 else 300.0
  }

  /** `MAGIC_WEAPONS['heal']['heal_amount']`. */
  const HealAmount: int := 60
  /** `LightningBolt.chain_count`. */
  const ChainCount: nat := 3
  /** `LightningBolt.chain_range`. */
  const ChainRange: real := 200.0

  /** `min(max_hp, hp + heal_amount)`. */
  function Healed(hp: int, maxHp: int): int
  {
    if hp + HealAmount < maxHp then hp + HealAmount else maxHp
  }

  /** A heal never lifts hp above the maximum, never lowers hp that is at or
      below it, and either restores the full amount or fills up to the
      maximum. */
  lemma HealCapped(hp: int, maxHp: int)
    ensures Healed(hp, maxHp) <= maxHp
    ensures hp <= maxHp ==> hp <= Healed(hp, maxHp)
    ensures Healed(hp, maxHp) == hp + HealAmount || Healed(hp, maxHp) == maxHp
  {
  }

  /** `0.8 ** k`. */
  function Decline(k: nat): (r: real)
    ensures 0.0 < r <= 1.0
  {
    if k == 0 then 1.0 else 0.8 * Decline(k - 1)
  }

  /** The damage the k-th enemy struck by the chain takes:
      `damage * 0.8 ** len(hit_enemies)` with k enemies hit so far. */
  function ChainDamage(k: nat): real
  {
    Decline(k) * 60.0
  }

  /** The 60 above is the spell's own damage. */
  lemma ChainDamageOfSpell(k: nat)
    ensures ChainDamage(k) == Damage(LightningBolt) as real * Decline(k)
  {
  }

  /** Every hop of the chain deals 0.8 times the hop before, so even the
      first strike deals less than the spell's damage. */
  lemma ChainDamageDecays(k: nat)
    ensures ChainDamage(k + 1) == 0.8 * ChainDamage(k)
    ensures k >= 1 ==> ChainDamage(k) <= 48.0
    ensures ChainDamage(1) == 48.0 && ChainDamage(2) == 38.4 && ChainDamage(3) == 30.72
  {
    if k >= 1 {
      DeclineBelow(k);
    }
  }

  /** Past the first power, `0.8 ** k` is at most 0.8. */
  lemma {:induction false} DeclineBelow(k: nat)
    requires k >= 1
    ensures Decline(k) <= 0.8
  {
    if k > 1 {
      DeclineBelow(k - 1);
    }
  }

  // ---------------------------------------------------------------------
  // Choosing lightning targets

  /** e is strictly within reach of from, or there is no reach. */
  predicate InReach(from: Vec, e: Enemy, reach: Option<real>)
    reads e`pos
  {
    reach.None? || DistSq(from, e.pos) < reach.value * reach.value
  }

  /** e may be struck: not hit yet and within reach. */
  predicate Eligible(from: Vec, hit: seq<Enemy>, reach: Option<real>, e: Enemy)
    reads e`pos
  {
    e !in hit && InReach(from, e, reach)
  }

  /** No enemy of s may be struck from `from`. */
  predicate NoneEligible(s: seq<Enemy>, from: Vec, hit: seq<Enemy>, reach: Option<real>)
    reads s`pos
  {
    forall k :: 0 <= k < |s| ==> !Eligible(from, hit, reach, s[k])
  }

  /** t is an enemy of s that may be struck and that no other such enemy is
      nearer to than it is. */
  predicate Nearest(s: seq<Enemy>, from: Vec, hit: seq<Enemy>, reach: Option<real>, t: Enemy)
    reads s`pos, t`pos
  {
    t in s && Eligible(from, hit, reach, t) &&
    forall k :: 0 <= k < |s| && Eligible(from, hit, reach, s[k]) ==> DistSq(from, t.pos) <= DistSq(from, s[k].pos)
  }

  /** Of the enemies of s that may be struck and are exactly as near as t,
      t comes first: the scans compare with a strict `<`. */
  predicate First(s: seq<Enemy>, from: Vec, hit: seq<Enemy>, reach: Option<real>, t: Enemy)
    reads s`pos, t`pos
  {
    t in s &&
    forall k :: 0 <= k < |s| && Eligible(from, hit, reach, s[k]) && DistSq(from, s[k].pos) == DistSq(from, t.pos) ==>
      Rank(s, t) <= k
  }

  /** The scan both target searches make over `game.enemies`: the enemy
      strictly nearer than every one before it, starting from the reach (the
      first target of `LightningBolt.cast`, with no reach and nobody hit, or
      `find_next_target`, with `chain_range` and the enemies hit so far). Of
      several at the least distance it keeps the first. */
  method Closest(s: seq<Enemy>, from: Vec, hit: seq<Enemy>, reach: Option<real>) returns (t: Enemy?)
    ensures t == null <==> NoneEligible(s, from, hit, reach)
    ensures t != null ==> Nearest(s, from, hit, reach, t)
    ensures t != null ==> First(s, from, hit, reach, t)
  {
    t := null;
    var best := 0.0;
    ghost var at := 0;
    for i := 0 to |s|
      invariant t == null ==> forall k :: 0 <= k < i ==> !Eligible(from, hit, reach, s[k])
      invariant t != null ==> 0 <= at < i && t == s[at] && Eligible(from, hit, reach, t) && best == DistSq(from, t.pos)
      invariant t != null ==> forall k :: 0 <= k < i && Eligible(from, hit, reach, s[k]) ==> best <= DistSq(from, s[k].pos)
      invariant t != null ==> forall k :: 0 <= k < at && Eligible(from, hit, reach, s[k]) ==> best < DistSq(from, s[k].pos)
    {
      var e := s[i];
      if e !in hit {
        var d := DistSq(from, e.pos);
        if (t == null && (reach.None? || d < reach.value * reach.value)) || (t != null && d < best) {
          t, best, at := e, d, i;
        }
      }
    }
    if t != null {
      assert Rank(s, t) <= at;
    }
  }

  /** The roster the searches see during a cast is the roster at its start
      less some of the enemies already struck, so a nearest enemy in it is a
      nearest enemy of the starting roster too. */
  lemma NearestInSnapshot(cur: seq<Enemy>, start: seq<Enemy>, from: Vec, hit: seq<Enemy>, reach: Option<real>, t: Enemy)
    requires Roster(cur, start, hit)
    requires Nearest(cur, from, hit, reach, t)
    ensures Nearest(start, from, hit, reach, t)
  {
    forall k | 0 <= k < |start| && Eligible(from, hit, reach, start[k])
      ensures DistSq(from, t.pos) <= DistSq(from, start[k].pos)
    {
      var j :| 0 <= j < |cur| && cur[j] == start[k];
    }
  }

  /** When the roster the searches see is the starting one less enemies
      already struck, in the same order, the first of the nearest in it is
      the first of the nearest in the starting roster too. */
  lemma FirstInSnapshot(cur: seq<Enemy>, start: seq<Enemy>, gone: set<Enemy>, from: Vec, hit: seq<Enemy>,
                        reach: Option<real>, t: Enemy)
    requires cur == Except(start, gone) && forall e :: e in gone ==> e in hit
    requires First(cur, from, hit, reach, t)
    ensures First(start, from, hit, reach, t)
  {
    ExceptMembers(start, gone);
    forall k | 0 <= k < |start| && Eligible(from, hit, reach, start[k]) && DistSq(from, start[k].pos) == DistSq(from, t.pos)
      ensures Rank(start, t) <= k
    {
      ExceptRank(start, gone, k, t);
    }
  }

  /** Likewise, when no enemy of that roster may be struck, none of the
      starting roster may. */
  lemma NoneInSnapshot(cur: seq<Enemy>, start: seq<Enemy>, from: Vec, hit: seq<Enemy>, reach: Option<real>)
    requires Roster(cur, start, hit)
    requires NoneEligible(cur, from, hit, reach)
    ensures NoneEligible(start, from, hit, reach)
  {
    forall k | 0 <= k < |start|
      ensures !Eligible(from, hit, reach, start[k])
    {
      if start[k] !in hit {
        var j :| 0 <= j < |cur| && cur[j] == start[k];
      }
    }
  }

  /** How many enemies of the chain are left at zero hp. */
  function KillCount(chain: seq<Enemy>): (n: nat)
    reads chain`currentHp
    ensures n <= |chain|
  {
    if chain == [] then 0
    else (if chain[|chain| - 1].currentHp == 0.0 then 1 else 0) + KillCount(chain[..|chain| - 1])
  }

  // ---------------------------------------------------------------------
  // Projectiles

  /** A `MagicProjectile`: where it is, where it flies, how fast and how far
      it has flown of its range. */
  class Projectile {
    var pos: Vec
    const direction: Vec
    const speed: real
    var distanceTraveled: real
    const maxRange: real

    constructor (at: Vec, direction: Vec, speed: real, maxRange: real)
      ensures pos == at && this.direction == direction && this.speed == speed
      ensures distanceTraveled == 0.0 && this.maxRange == maxRange
    {
      pos := at;
      this.direction := direction;
      this.speed := speed;
      distanceTraveled := 0.0;
      this.maxRange := maxRange;
    }

    /** `update()`: one step of `direction * speed`, whose length (`step`,
        which the source takes with a square root) is added to the distance
        flown; once that reaches the range the projectile is removed from
        its weapon's group. */
    method Update(owner: Weapon, step: real) returns (expired: bool)
      requires step >= 0.0 && step * step == direction.Scale(speed).LenSq()
      modifies this`pos, this`distanceTraveled, owner`projectiles
      ensures pos == old(pos).Plus(direction.Scale(speed))
      ensures distanceTraveled == old(distanceTraveled) + step
      ensures expired <==> distanceTraveled >= maxRange
      ensures expired ==> owner.projectiles == Without(old(owner.projectiles), this)
      ensures !expired ==> owner.projectiles == old(owner.projectiles)
    {
      var movement := direction.Scale(speed);
      pos := pos.Plus(movement);
      distanceTraveled := distanceTraveled + step;
      expired := distanceTraveled >= maxRange;
      if expired {
        owner.projectiles := Without(owner.projectiles, this);
      }
    }
  }

  /** The length of one update's step, `movement.length()`: the speed for
      a unit direction, and nothing for the zero direction of a cast aimed
      at the caster's own centre. */
  lemma StepLength(direction: Vec, speed: real, step: real)
    requires speed >= 0.0 && (direction.LenSq() == 1.0 || direction == Zero)
    requires step >= 0.0 && step * step == direction.Scale(speed).LenSq()
    ensures direction == Zero ==> step == 0.0
    ensures direction != Zero ==> step == speed
  {
    ScaledLength(direction, speed);
    if direction != Zero {
      assert step * step == speed * speed * 1.0;
      SameSquare(step, speed);
    } else {
      assert direction.LenSq() == 0.0;
      assert step * step == 0.0 * 0.0;
      SameSquare(step, 0.0);
    }
  }

  /** Two non-negative reals with the same square are equal. */
  lemma SameSquare(a: real, b: real)
    requires a >= 0.0 && b >= 0.0 && a * a == b * b
    ensures a == b
  {
    assert (a - b) * (a + b) == a * a - b * b;
    ZeroProduct(a - b, a + b);
  }

  /** Scaling a vector by k scales its squared length by k². */
  lemma ScaledLength(v: Vec, k: real)
    ensures v.Scale(k).LenSq() == k * k * v.LenSq()
  {
    var x, y := v.x, v.y;
    calc {
      v.Scale(k).LenSq();
      (k * x) * (k * x) + (k * y) * (k * y);
      k * k * (x * x) + k * k * (y * y);
      k * k * (x * x + y * y);
    }
  }

  /** A product of reals is zero only when one of its factors is. */
  lemma ZeroProduct(p: real, q: real)
    requires p * q == 0.0
    ensures p == 0.0 || q == 0.0
  {
  }

  /** `distance_traveled` after `n` calls of `update()` on a projectile
      fresh from a cast: each call adds the same `step`. */
  function Flown(step: real, n: nat): real
  {
    if n == 0 then 0.0 else Flown(step, n - 1) + step
  }

  /** Every update adds the same step, so the distance grows linearly. */
  lemma {:induction false} FlownLinear(step: real, n: nat)
    ensures Flown(step, n) == n as real * step
  {
    if n > 0 {
      FlownLinear(step, n - 1);
    }
  }

  /** A projectile fired along a unit direction has flown n times its speed
      after n updates, and the update that removes it is the first to bring
      that to its range: the 50th for a fireball, the 25th for an ice
      lance. */
  lemma FlightLength(kind: WeaponKind, direction: Vec, step: real, n: nat)
    requires kind == Fireball || kind == IceLance
    requires direction.LenSq() == 1.0
    requires step >= 0.0 && step * step == direction.Scale(ProjectileSpeed(kind)).LenSq()
    ensures Flown(step, n) == n as real * ProjectileSpeed(kind)
    ensures Flown(step, n) >= ProjectileRange(kind) <==> n >= (if kind == Fireball then 50 else 25)
  {
    StepLength(direction, ProjectileSpeed(kind), step);
    FlownLinear(step, n);
  }

  /** A projectile fired with the zero direction never moves, so its
      distance never reaches its range and `update()` never removes it. */
  lemma Stranded(kind: WeaponKind, step: real, n: nat)
    requires kind == Fireball || kind == IceLance
    requires step >= 0.0 && step * step == Zero.Scale(ProjectileSpeed(kind)).LenSq()
    ensures Flown(step, n) == 0.0 < ProjectileRange(kind)
  {
    StepLength(Zero, ProjectileSpeed(kind), step);
    FlownLinear(step, n);
  }

  // ---------------------------------------------------------------------
  // Weapons

  /** A `MagicWeapon`: its kind, when it was last cast and the group of the
      projectiles it fired that are still flying. */
  class Weapon {
    const kind: WeaponKind
    var lastCastTime: int
    var projectiles: seq<Projectile>

    constructor (kind: WeaponKind)
      ensures this.kind == kind && lastCastTime == 0 && projectiles == []
    {
      this.kind := kind;
      lastCastTime := 0;
      projectiles := [];
    }

    /** `can_cast(player)`: the cooldown has passed and the mana suffices. */
    predicate CanCast(now: int, player: Player)
      reads this`lastCastTime, player`currentMana
    {
      now - lastCastTime >= Cooldown(kind) && player.currentMana >= ManaCost(kind)
    }

    /** `MagicWeapon.cast`: a cast that passes the gate spends exactly the
        mana cost and stamps the cast; one that fails changes nothing. */
    method Gate(now: int, player: Player) returns (ok: bool)
      modifies this`lastCastTime, player`currentMana
      ensures ok <==> old(CanCast(now, player))
      ensures ok ==> player.currentMana == old(player.currentMana) - ManaCost(kind) && lastCastTime == now
      ensures ok ==> player.currentMana >= 0
      ensures old(player.Valid()) ==> player.Valid()
      ensures !ok ==> player.currentMana == old(player.currentMana) && lastCastTime == old(lastCastTime)
    {
      if !(now - lastCastTime >= Cooldown(kind) && player.currentMana >= ManaCost(kind)) {
        return false;
      }
      player.currentMana := player.currentMana - ManaCost(kind);
      lastCastTime := now;
      return true;
    }

    /** `Fireball.cast` and `IceLance.cast`: after the gate, one projectile
        leaves the player's centre along `direction`, the aim `target` less
        that centre normalised (which the source takes with a square root),
        or zero when the aim is on the player, and joins this weapon's
        group. */
    method CastProjectile(now: int, player: Player, target: Vec, direction: Vec) returns (ok: bool)
      requires kind == Fireball || kind == IceLance
      requires IsDirection(direction, player.pos, target)
      modifies this`lastCastTime, this`projectiles, player`currentMana
      ensures ok <==> old(CanCast(now, player))
      ensures ok ==> player.currentMana == old(player.currentMana) - ManaCost(kind) && lastCastTime == now
      ensures !ok ==> player.currentMana == old(player.currentMana) && lastCastTime == old(lastCastTime) &&
                      projectiles == old(projectiles)
      ensures ok ==> |projectiles| == |old(projectiles)| + 1 && projectiles[..|old(projectiles)|] == old(projectiles)
      ensures ok ==> var p := projectiles[|projectiles| - 1];
                     fresh(p) && p.pos == player.pos && p.direction == direction &&
                     p.speed == ProjectileSpeed(kind) && p.distanceTraveled == 0.0 && p.maxRange == ProjectileRange(kind)
      ensures ok ==> var p := projectiles[|projectiles| - 1];
                     (p.direction == Zero <==> target == old(player.pos)) &&
                     (p.direction != Zero ==> p.direction.LenSq() == 1.0)
    {
      DirectionShape(direction, player.pos, target);
      ok := Gate(now, player);
      if ok {
        var p := new Projectile(player.pos, direction, ProjectileSpeed(kind), ProjectileRange(kind));
        projectiles := projectiles + [p];
      }
    }

    /** `Heal.cast`: after the gate, hp becomes `min(max_hp, hp + 60)`. */
    method CastHeal(now: int, player: Player) returns (ok: bool)
      requires kind == Heal && player.Valid()
      modifies this`lastCastTime, player`currentMana, player`hp
      ensures player.Valid()
      ensures ok <==> old(CanCast(now, player))
      ensures ok ==> player.currentMana == old(player.currentMana) - ManaCost(kind) && lastCastTime == now
      ensures ok ==> player.hp == Healed(old(player.hp), player.maxHp)
      ensures !ok ==> player.currentMana == old(player.currentMana) && lastCastTime == old(lastCastTime) &&
                      player.hp == old(player.hp)
    {
      ok := Gate(now, player);
      if ok {
        HealCapped(player.hp, player.maxHp);
        player.hp := Healed(player.hp, player.maxHp);
      }
    }

    /** `LightningBolt.cast`: after the gate, the chain starts at the enemy
        nearest to the player at any distance and hops to the nearest enemy
        not yet struck within `chain_range` of the last one, striking at most
        three. The k-th strike deals `ChainDamage(k)`, and every strike that
        kills earns the player `ENEMY_XP_REWARD`. A cast that passes the gate
        succeeds with or without enemies. `chain` is the enemies struck, in
        order. */
    method CastLightning(now: int, player: Player, groups: Groups) returns (ok: bool, chain: seq<Enemy>)
      requires kind == LightningBolt && player.Valid()
      requires forall k :: 0 <= k < |groups.enemies| ==> groups.enemies[k].Valid()
      modifies this`lastCastTime, player`currentMana, player`level, player`xp, player`xpToNextLevel,
               groups`enemies
      modifies groups.enemies`currentHp, groups.enemies`isHit, groups.enemies`hitTime, groups.enemies`alive
      ensures player.Valid()
      ensures ok <==> old(CanCast(now, player))
      ensures ok ==> player.currentMana == old(player.currentMana) - ManaCost(kind) && lastCastTime == now
      ensures !ok ==> player.currentMana == old(player.currentMana) && lastCastTime == old(lastCastTime) &&
                      chain == [] && groups.enemies == old(groups.enemies)
      ensures ok ==> Lightning(old(groups.enemies), old(Positions(groups.enemies)), old(player.pos), chain)
      ensures Discharged(old(groups.enemies), old(HpOf(groups.enemies)), chain, groups.enemies)
      ensures player.Standing() == Rewards(old(player.Standing()), KillCount(chain))
      ensures Stamped(old(groups.enemies), chain, old(StatusOf(groups.enemies)), now)
      ensures forall k :: 0 <= k < |old(groups.enemies)| ==> old(groups.enemies)[k].Valid()
    {
      ghost var start, at, hp, st := groups.enemies, Positions(groups.enemies), HpOf(groups.enemies), StatusOf(groups.enemies);
      ghost var from, standing := player.pos, player.Standing();
      ok := Gate(now, player);
      chain := Release(ok, now, player, groups, start, at, hp, st, from, standing);
    }
  }

  /** The rest of `LightningBolt.cast` once the gate has answered `ok`: the
      chain is struck when it passed, and nothing happens otherwise. The
      roster `start`, with its positions `at`, hp `hp` and marks `st`, is
      the one of the moment of the cast, taken enemy by enemy. */
  method Release(ok: bool, now: int, player: Player, groups: Groups,
                 ghost start: seq<Enemy>, ghost at: map<Enemy, Vec>, ghost hp: map<Enemy, real>, ghost st: map<Enemy, Status>,
                 ghost from: Vec, ghost standing: Progress)
    returns (chain: seq<Enemy>)
    requires player.Valid() && from == player.pos && standing == Progress(player.level, player.xp, player.xpToNextLevel)
    requires start == groups.enemies && forall k :: 0 <= k < |start| ==> start[k].Valid()
    requires forall e :: e in start <==> e in at
    requires forall e :: e in start ==> e in at && at[e] == e.pos
    requires forall e :: e in start <==> e in hp
    requires forall e :: e in start ==> e in hp && hp[e] == e.currentHp
    requires forall e :: e in start <==> e in st
    requires forall e :: e in start ==> e in st && st[e] == Status(e.isHit, e.hitTime, e.alive)
    modifies player`level, player`xp, player`xpToNextLevel, groups`enemies
    modifies groups.enemies`currentHp, groups.enemies`isHit, groups.enemies`hitTime, groups.enemies`alive
    ensures player.Valid()
    ensures !ok ==> chain == [] && groups.enemies == start
    ensures ok ==> Lightning(start, at, from, chain)
    ensures Discharged(start, hp, chain, groups.enemies)
    ensures player.Standing() == Rewards(standing, KillCount(chain))
    ensures Stamped(start, chain, st, now)
    ensures forall k :: 0 <= k < |start| ==> start[k].Valid()
  {
    assert at == Positions(start) && hp == HpOf(start) && st == StatusOf(start);
    chain := [];
    if ok {
      chain := Strike(now, player, groups, start, at);
    } else {
      Untouched(start);
    }
  }

  /** A cast that strikes nobody leaves the roster as it was. */
  lemma Untouched(start: seq<Enemy>)
    ensures Discharged(start, HpOf(start), [], start)
  {
    ExceptNone(start);
    assert Slain(HpOf(start), []) == {};
  }

  /** What `LightningBolt.cast` promises of the enemies it strikes, on the
      roster `start` and the positions `at` of the moment of the cast, from
      the caster's position `from`: there is a chain exactly when there are
      enemies; it strikes at most `chain_count` of them, each once; the first
      is the nearest enemy at any distance; each next one is the nearest
      enemy not struck yet within `chain_range` of the one before; of
      several equally near, each is the first in roster order; and a
      chain shorter than `chain_count` stops because no enemy is left in
      range of its last one. */
  ghost predicate Lightning(start: seq<Enemy>, at: map<Enemy, Vec>, from: Vec, chain: seq<Enemy>) {
    (chain == [] <==> start == []) &&
    |chain| <= ChainCount &&
    (forall i, j :: 0 <= i < j < |chain| ==> chain[i] != chain[j]) &&
    (forall i :: 0 <= i < |chain| ==> chain[i] in start) &&
    (chain != [] ==> NearestAt(at, start, from, [], None, chain[0])) &&
    HopsAt(at, start, chain) &&
    (0 < |chain| < ChainCount ==>
       chain[|chain| - 1] in at && NoneEligibleAt(at, start, at[chain[|chain| - 1]], chain, Some(ChainRange)))
  }

  /** `cur`, the roster a search sees, is the starting roster less some of
      the enemies in `hit`. */
  ghost predicate Roster(cur: seq<Enemy>, start: seq<Enemy>, hit: seq<Enemy>) {
    (forall e :: e in cur ==> e in start) &&
    (forall e :: e in start && e !in hit ==> e in cur)
  }

  /** The enemies of `s`, in order, but those in `gone`. */
  function Except<T(==)>(s: seq<T>, gone: set<T>): (r: seq<T>)
    ensures |r| <= |s|
  {
    if s == [] then [] else (if s[0] in gone then [] else [s[0]]) + Except(s[1..], gone)
  }

  /** What is left holds exactly the enemies of `s` not in `gone`. */
  lemma {:induction false} ExceptMembers<T>(s: seq<T>, gone: set<T>)
    ensures forall e :: e in Except(s, gone) ==> e in s && e !in gone
    ensures forall e :: e in s && e !in gone ==> e in Except(s, gone)
  {
    if s != [] {
      ExceptMembers(s[1..], gone);
      assert s == [s[0]] + s[1..];
    }
  }

  /** Where t first stands in s. */
  function Rank<T(==)>(s: seq<T>, t: T): (r: nat)
    requires t in s
    ensures r < |s| && s[r] == t
    ensures forall i :: 0 <= i < r ==> s[i] != t
  {
    if s[0] == t then 0 else 1 + Rank(s[1..], t)
  }

  /** Leaving out keeps the order: when the k-th element of s stays, and t
      comes no later than every place that element takes in what is left,
      then t comes no later than k in s. */
  lemma ExceptRank<T>(s: seq<T>, gone: set<T>, k: nat, t: T)
    requires k < |s| && s[k] !in gone && t in Except(s, gone)
    requires forall j :: 0 <= j < |Except(s, gone)| && Except(s, gone)[j] == s[k] ==> Rank(Except(s, gone), t) <= j
    ensures t in s && Rank(s, t) <= k
  {
    var left, before := Except(s, gone), Except(s[..k + 1], gone);
    ExceptSplit(s, gone, k + 1);
    ExceptSplit(s[..k + 1], gone, k);
    assert s[..k + 1][..k] == s[..k] && s[..k + 1][k..] == [s[k]];
    assert Except([s[k]], gone) == [s[k]] by {
      assert [s[k]][1..] == [];
    }
    var j := |before| - 1;
    assert left[j] == s[k] && left[..j + 1] == before;
    assert left[..j + 1][Rank(left, t)] == t;
    ExceptMembers(s[..k + 1], gone);
    assert t in s[..k + 1];
    var i :| 0 <= i <= k && s[i] == t;
  }

  /** Leaving out is done piece by piece: what is left of s is what is left
      of its first k elements followed by what is left of the rest. */
  lemma {:induction false} ExceptSplit<T>(s: seq<T>, gone: set<T>, k: nat)
    requires k <= |s|
    ensures Except(s, gone) == Except(s[..k], gone) + Except(s[k..], gone)
  {
    if k > 0 {
      ExceptSplit(s[1..], gone, k - 1);
      assert s[..k][0] == s[0] && s[..k][1..] == s[1..][..k - 1];
      assert s[1..][k - 1..] == s[k..];
    } else {
      assert s[..0] == [] && s[0..] == s;
    }
  }

  /** Nothing gone, nothing removed. */
  lemma {:induction false} ExceptNone<T>(s: seq<T>)
    ensures Except(s, {}) == s
  {
    if s != [] {
      ExceptNone(s[1..]);
      assert s == [s[0]] + s[1..];
    }
  }

  /** `kill()` of one more enemy: removing e from what is left of s is
      leaving out e as well. */
  lemma {:induction false} ExceptOneMore<T>(s: seq<T>, gone: set<T>, e: T)
    ensures Without(Except(s, gone), e) == Except(s, gone + {e})
  {
    if s != [] {
      var rest := Except(s[1..], gone);
      ExceptOneMore(s[1..], gone, e);
      assert Except(s, gone + {e}) == (if s[0] in gone + {e} then [] else [s[0]]) + Except(s[1..], gone + {e});
      if s[0] !in gone {
        var kept := [s[0]] + rest;
        assert Except(s, gone) == kept && kept[0] == s[0] && kept[1..] == rest;
        assert Without(kept, e) == if s[0] == e then Without(rest, e) else [s[0]] + Without(rest, e);
      } else {
        assert Except(s, gone) == rest;
      }
    }
  }

  /** The enemies of the chain whose strike killed, by the flags of
      `Tally`. */
  function Fallen<T>(chain: seq<T>, flags: seq<bool>): (f: set<T>)
    requires |flags| == |chain|
    ensures forall e :: e in f ==> exists i :: 0 <= i < |chain| && chain[i] == e && flags[i]
    ensures forall i :: 0 <= i < |chain| && flags[i] ==> chain[i] in f
  {
    if chain == [] then {}
    else
      var n := |chain| - 1;
      Fallen(chain[..n], flags[..n]) + (if flags[n] then {chain[n]} else {})
  }

  /** The enemies of the chain whose strike leaves them at zero hp, from
      the hp `hp0` they had before: those `kill()` removed. */
  ghost function Slain(hp0: map<Enemy, real>, chain: seq<Enemy>): set<Enemy> {
    set i | 0 <= i < |chain| && chain[i] in hp0 && Struck(hp0[chain[i]], i + 1) == 0.0 :: chain[i]
  }

  /** The hp of every enemy of the roster. */
  ghost function HpOf(s: seq<Enemy>): map<Enemy, real>
    reads s`currentHp
  {
    map e | e in s :: e.currentHp
  }

  /** What a cast leaves on the roster `start`, whose enemies had the hp
      `hp0` when it began: the enemy of the k-th hop has the hp `Struck`
      gives for its old hp, every other enemy keeps its hp, and the roster
      `cur` is `start`, in order, less the chain's enemies `Slain` leaves at zero. */
  ghost predicate Discharged(start: seq<Enemy>, hp0: map<Enemy, real>, chain: seq<Enemy>, cur: seq<Enemy>)
    reads start, chain
  {
    (forall i :: 0 <= i < |chain| ==> chain[i] in hp0 && chain[i].currentHp == Struck(hp0[chain[i]], i + 1)) &&
    (forall e :: e in start && e !in chain ==> e in hp0 && e.currentHp == hp0[e]) &&
    cur == Except(start, Slain(hp0, chain))
  }

  /** The marks `take_damage` leaves on an enemy besides its hp. */
  datatype Status = Status(isHit: bool, hitTime: int, alive: bool)

  /** The marks of every enemy of the roster. */
  ghost function StatusOf(s: seq<Enemy>): map<Enemy, Status>
    reads s`isHit, s`hitTime, s`alive
  {
    map e | e in s :: Status(e.isHit, e.hitTime, e.alive)
  }

  /** What a cast at `now` leaves on the marks of the roster `start`, whose
      marks were `st0` when it began: every one the chain missed keeps its
      marks; every one it struck is marked hit at `now` and, unless left at
      zero hp, is as alive as it was (one left at zero hp is dead, since it
      stays valid). */
  ghost predicate Stamped(start: seq<Enemy>, chain: seq<Enemy>, st0: map<Enemy, Status>, now: int)
    reads start`isHit, start`hitTime, start`alive, chain`isHit, chain`hitTime, chain`alive, chain`currentHp
  {
    (forall e :: e in start && e !in chain ==> e in st0 && Status(e.isHit, e.hitTime, e.alive) == st0[e]) &&
    (forall i :: 0 <= i < |chain| ==>
       chain[i] in st0 && chain[i].isHit && chain[i].hitTime == now &&
       (chain[i].currentHp > 0.0 ==> chain[i].alive == st0[chain[i]].alive))
  }

  // ---------------------------------------------------------------------
  // The same choices, on the positions recorded when a cast begins (no
  // enemy moves during a cast)

  /** Every enemy of s stands where `at` records it. */
  ghost predicate Located(s: seq<Enemy>, at: map<Enemy, Vec>)
    reads s`pos
  {
    forall e :: e in s ==> e in at && e.pos == at[e]
  }

  /** Where each enemy of s stands. */
  ghost function Positions(s: seq<Enemy>): (at: map<Enemy, Vec>)
    reads s`pos
    ensures Located(s, at) && forall e :: e in at ==> e in s
  {
    map e: Enemy | e in s :: e.pos
  }

  ghost predicate EligibleAt(at: map<Enemy, Vec>, from: Vec, hit: seq<Enemy>, reach: Option<real>, e: Enemy) {
    e in at && e !in hit && (reach.None? || DistSq(from, at[e]) < reach.value * reach.value)
  }

  /** `Nearest` and `First` together, read on the positions `at`: t is the
      first of the nearest enemies of s that may be struck. */
  ghost predicate NearestAt(at: map<Enemy, Vec>, s: seq<Enemy>, from: Vec, hit: seq<Enemy>, reach: Option<real>, t: Enemy) {
    t in s && EligibleAt(at, from, hit, reach, t) &&
    (forall k :: 0 <= k < |s| && EligibleAt(at, from, hit, reach, s[k]) ==> DistSq(from, at[t]) <= DistSq(from, at[s[k]])) &&
    (forall k :: 0 <= k < |s| && EligibleAt(at, from, hit, reach, s[k]) && DistSq(from, at[s[k]]) == DistSq(from, at[t]) ==>
       Rank(s, t) <= k)
  }

  ghost predicate NoneEligibleAt(at: map<Enemy, Vec>, s: seq<Enemy>, from: Vec, hit: seq<Enemy>, reach: Option<real>) {
    forall k :: 0 <= k < |s| ==> !EligibleAt(at, from, hit, reach, s[k])
  }

  ghost predicate HopsAt(at: map<Enemy, Vec>, start: seq<Enemy>, chain: seq<Enemy>) {
    forall i :: 0 <= i < |chain| - 1 ==> HoppedAt(at, start, chain, i)
  }

  ghost predicate HoppedAt(at: map<Enemy, Vec>, start: seq<Enemy>, chain: seq<Enemy>, i: int)
    requires 0 <= i < |chain| - 1
  {
    chain[i] in at && NearestAt(at, start, at[chain[i]], chain[..i + 1], Some(ChainRange), chain[i + 1])
  }

  /** On located enemies, the two readings of "nearest" agree. */
  lemma LocatedNearest(at: map<Enemy, Vec>, s: seq<Enemy>, from: Vec, hit: seq<Enemy>, reach: Option<real>, t: Enemy)
    requires Located(s, at) && t in s
    ensures Nearest(s, from, hit, reach, t) && First(s, from, hit, reach, t) <==> NearestAt(at, s, from, hit, reach, t)
  {
    assert forall k :: 0 <= k < |s| ==> s[k] in at && s[k].pos == at[s[k]];
    assert forall k :: 0 <= k < |s| ==> (Eligible(from, hit, reach, s[k]) <==> EligibleAt(at, from, hit, reach, s[k]));
  }

  /** Likewise for "none may be struck". */
  lemma LocatedNone(at: map<Enemy, Vec>, s: seq<Enemy>, from: Vec, hit: seq<Enemy>, reach: Option<real>)
    requires Located(s, at)
    ensures NoneEligible(s, from, hit, reach) <==> NoneEligibleAt(at, s, from, hit, reach)
  {
    assert forall k :: 0 <= k < |s| ==> (Eligible(from, hit, reach, s[k]) <==> EligibleAt(at, from, hit, reach, s[k]));
  }

  /** A chain grows by the nearest enemy to its last one. */
  lemma HopsExtend(at: map<Enemy, Vec>, start: seq<Enemy>, chain: seq<Enemy>, next: Enemy)
    requires HopsAt(at, start, chain)
    requires chain != [] ==>
               chain[|chain| - 1] in at && NearestAt(at, start, at[chain[|chain| - 1]], chain, Some(ChainRange), next)
    ensures HopsAt(at, start, chain + [next])
  {
    var longer := chain + [next];
    forall i | 0 <= i < |longer| - 1
      ensures HoppedAt(at, start, longer, i)
    {
      if i < |chain| - 1 {
        assert HoppedAt(at, start, chain, i);
        assert longer[..i + 1] == chain[..i + 1] && longer[i] == chain[i] && longer[i + 1] == chain[i + 1];
      } else {
        assert longer[..i + 1] == chain;
      }
    }
  }

  /** The hp `LightningBolt.cast` leaves on an enemy that had `hp` when struck
      by the k-th hop. */
  function Struck(hp: real, k: nat): (r: real)
    ensures r == 0.0 || r == hp - ChainDamage(k)
    ensures r == 0.0 <==> hp - ChainDamage(k) <= 0.0
  {
    if hp - ChainDamage(k) <= 0.0 then 0.0 else hp - ChainDamage(k)
  }

  /** The bookkeeping of a cast in progress: the enemies of the starting
      roster are valid, `chain` lists distinct enemies of it, each struck
      once by the hop of its position and marked hit at `now`, and every
      other one still has the hp recorded in `hp0` and the marks recorded in
      `st0` when the cast began. */
  ghost predicate Ledger(start: seq<Enemy>, chain: seq<Enemy>, hp0: map<Enemy, real>, st0: map<Enemy, Status>, now: int)
    reads start, chain
  {
    (forall e :: e in start ==> e in hp0 && e in st0 && e.Valid()) &&
    (forall i, j :: 0 <= i < j < |chain| ==> chain[i] != chain[j]) &&
    (forall e :: e in chain ==> e in start) &&
    (forall e :: e in start && e !in chain ==> e.currentHp == hp0[e] && Status(e.isHit, e.hitTime, e.alive) == st0[e]) &&
    (forall i :: 0 <= i < |chain| ==>
       chain[i] in hp0 && chain[i].currentHp == Struck(hp0[chain[i]], i + 1) &&
       chain[i] in st0 && chain[i].isHit && chain[i].hitTime == now &&
       (chain[i].currentHp > 0.0 ==> chain[i].alive == st0[chain[i]].alive))
  }

  /** What `Ledger` says of every enemy but `current`; it does not read
      `current`, so it survives the hit on `current`. */
  ghost predicate Others(start: seq<Enemy>, chain: seq<Enemy>, hp0: map<Enemy, real>, st0: map<Enemy, Status>,
                         now: int, current: Enemy)
    reads set e | e in start + chain && e != current
  {
    (forall e :: e in start && e != current ==> e in hp0 && e in st0 && e.Valid()) &&
    (forall e :: e in start && e !in chain && e != current ==>
       e in hp0 && e.currentHp == hp0[e] && e in st0 && Status(e.isHit, e.hitTime, e.alive) == st0[e]) &&
    (forall i :: 0 <= i < |chain| && chain[i] != current ==>
       chain[i] in hp0 && chain[i].currentHp == Struck(hp0[chain[i]], i + 1) &&
       chain[i] in st0 && chain[i].isHit && chain[i].hitTime == now &&
       (chain[i].currentHp > 0.0 ==> chain[i].alive == st0[chain[i]].alive))
  }

  /** The damage of one hop: `current`, the hop after `chain`, takes that
      hop's damage, and leaves the roster when it dies. */
  method Wound(now: int, groups: Groups, ghost start: seq<Enemy>, ghost hp0: map<Enemy, real>,
                ghost pos0: map<Enemy, Vec>, ghost st0: map<Enemy, Status>, chain: seq<Enemy>, current: Enemy)
    returns (killed: bool)
    requires current in start && current !in chain
    requires Ledger(start, chain, hp0, st0, now) && Roster(groups.enemies, start, chain) && Located(start, pos0)
    modifies groups`enemies, current`currentHp, current`isHit, current`hitTime, current`alive
    ensures Ledger(start, chain + [current], hp0, st0, now) && Roster(groups.enemies, start, chain + [current])
    ensures Located(start, pos0)
    ensures current in hp0 && (killed <==> Struck(hp0[current], |chain| + 1) == 0.0)
    ensures groups.enemies == if killed then Without(old(groups.enemies), current) else old(groups.enemies)
  {
    assert Others(start, chain, hp0, st0, now, current);
    killed := current.TakeDamage(ChainDamage(|chain| + 1), now, groups);
    Mend(start, chain, hp0, st0, now, current);
  }

  /** The hit on `current`, put together with the rest of the ledger, is the
      ledger of the chain one hop longer. */
  lemma Mend(start: seq<Enemy>, chain: seq<Enemy>, hp0: map<Enemy, real>, st0: map<Enemy, Status>, now: int, current: Enemy)
    requires Others(start, chain, hp0, st0, now, current)
    requires current in start && current !in chain && current.Valid() && current in hp0 && current in st0
    requires (forall i, j :: 0 <= i < j < |chain| ==> chain[i] != chain[j]) && (forall e :: e in chain ==> e in start)
    requires current.currentHp == Struck(hp0[current], |chain| + 1) && current.isHit && current.hitTime == now
    requires current.currentHp > 0.0 ==> current.alive == st0[current].alive
    ensures Ledger(start, chain + [current], hp0, st0, now)
  {
    var hit := chain + [current];
    forall i | 0 <= i < |hit|
      ensures hit[i] in hp0 && hit[i].currentHp == Struck(hp0[hit[i]], i + 1)
      ensures hit[i] in st0 && hit[i].isHit && hit[i].hitTime == now
      ensures hit[i].currentHp > 0.0 ==> hit[i].alive == st0[hit[i]].alive
    {
      if i < |chain| {
        assert hit[i] == chain[i] != current;
      }
    }
  }

  /** The strike of one hop: the damage, and the reward for a kill. */
  method StrikeOne(now: int, player: Player, groups: Groups, ghost start: seq<Enemy>, ghost hp0: map<Enemy, real>,
                   ghost pos0: map<Enemy, Vec>, ghost st0: map<Enemy, Status>, ghost standing: Progress,
                   chain: seq<Enemy>, ghost flags: seq<bool>, current: Enemy)
    returns (killed: bool, ghost marks: seq<bool>)
    requires standing.threshold > 0 && current in start && current !in chain
    requires Ledger(start, chain, hp0, st0, now) && Roster(groups.enemies, start, chain) && Located(start, pos0)
    requires player.Valid() && player.Standing() == Rewards(standing, Count(flags)) && Tally(hp0, chain, flags)
    requires groups.enemies == Except(start, Fallen(chain, flags))
    modifies player`level, player`xp, player`xpToNextLevel, groups`enemies
    modifies current`currentHp, current`isHit, current`hitTime, current`alive
    ensures marks == flags + [killed]
    ensures groups.enemies == Except(start, Fallen(chain + [current], marks))
    ensures Ledger(start, chain + [current], hp0, st0, now) && Roster(groups.enemies, start, chain + [current])
    ensures Located(start, pos0)
    ensures player.Valid() && player.Standing() == Rewards(standing, Count(marks)) && Tally(hp0, chain + [current], marks)
  {
    ghost var before := groups.enemies;
    killed := Wound(now, groups, start, hp0, pos0, st0, chain, current);
    TallyStep(hp0, chain, flags, current, killed);
    Fell(start, chain, flags, current, killed, before, groups.enemies);
    marks := Reward(player, standing, flags, killed, groups, start, hp0, pos0, st0, now, chain + [current]);
  }

  /** The reward of one strike: experience for a kill, and the kill added
      to the tally of the chain so far. */
  method Reward(player: Player, ghost standing: Progress, ghost flags: seq<bool>, killed: bool,
                groups: Groups, ghost start: seq<Enemy>, ghost hp0: map<Enemy, real>, ghost pos0: map<Enemy, Vec>,
                ghost st0: map<Enemy, Status>, now: int, ghost hit: seq<Enemy>)
    returns (ghost marks: seq<bool>)
    requires standing.threshold > 0
    requires player.Valid() && player.Standing() == Rewards(standing, Count(flags))
    requires Ledger(start, hit, hp0, st0, now) && Roster(groups.enemies, start, hit) && Located(start, pos0)
    modifies player`level, player`xp, player`xpToNextLevel
    ensures marks == flags + [killed]
    ensures player.Valid() && player.Standing() == Rewards(standing, Count(marks))
    ensures Ledger(start, hit, hp0, st0, now) && Roster(groups.enemies, start, hit) && Located(start, pos0)
  {
    ghost var before := player.Standing();
    marks := flags + [killed];
    assert marks[..|flags|] == flags;
    if killed {
      player.GainXp(EnemyXpReward);
      assert Rewards(standing, Count(flags) + 1) == Gain(before, EnemyXpReward);
    }
  }

  /** How many of the flags are set. */
  function Count(flags: seq<bool>): (n: nat)
    ensures n <= |flags|
  {
    if flags == [] then 0 else Count(flags[..|flags| - 1]) + (if flags[|flags| - 1] then 1 else 0)
  }

  /** The kills of a chain are its flagged strikes, when each flag says
      whether that strike left its enemy at zero hp. */
  lemma {:induction false} KillCountFlags(chain: seq<Enemy>, flags: seq<bool>)
    requires |flags| == |chain|
    requires forall i :: 0 <= i < |chain| ==> (flags[i] <==> chain[i].currentHp == 0.0)
    ensures KillCount(chain) == Count(flags)
  {
    if chain != [] {
      KillCountFlags(chain[..|chain| - 1], flags[..|flags| - 1]);
    }
  }

  /** The search of one hop: the next target, from `from`, among the enemies
      of the roster not in `hit`. Nothing changes. */
  method Seek(player: Player, groups: Groups, ghost start: seq<Enemy>, ghost hp0: map<Enemy, real>,
              ghost pos0: map<Enemy, Vec>, ghost st0: map<Enemy, Status>, ghost now: int, ghost gone: set<Enemy>,
              hit: seq<Enemy>, from: Vec, reach: Option<real>)
    returns (next: Enemy?)
    requires player.Valid()
    requires Ledger(start, hit, hp0, st0, now) && Roster(groups.enemies, start, hit) && Located(start, pos0)
    requires groups.enemies == Except(start, gone) && forall e :: e in gone ==> e in hit
    ensures player.Valid() && player.Standing() == old(player.Standing())
    ensures Ledger(start, hit, hp0, st0, now) && Roster(groups.enemies, start, hit) && Located(start, pos0)
    ensures next != null ==> next in start && NearestAt(pos0, start, from, hit, reach, next)
    ensures next == null ==> NoneEligibleAt(pos0, start, from, hit, reach)
  {
    next := Closest(groups.enemies, from, hit, reach);
    if next != null {
      NearestInSnapshot(groups.enemies, start, from, hit, reach, next);
      FirstInSnapshot(groups.enemies, start, gone, from, hit, reach, next);
      LocatedNearest(pos0, start, from, hit, reach, next);
    } else {
      NoneInSnapshot(groups.enemies, start, from, hit, reach);
      LocatedNone(pos0, start, from, hit, reach);
    }
  }

  /** Which strikes of the chain killed: `flags[i]` says whether the hit of
      hop i + 1 left its enemy, at its recorded hp, at zero. */
  ghost predicate Tally(hp0: map<Enemy, real>, chain: seq<Enemy>, flags: seq<bool>) {
    |flags| == |chain| &&
    forall i :: 0 <= i < |chain| ==> chain[i] in hp0 && (flags[i] <==> Struck(hp0[chain[i]], i + 1) == 0.0)
  }

  /** A strike appends its flag to the tally. */
  lemma TallyStep(hp0: map<Enemy, real>, chain: seq<Enemy>, flags: seq<bool>, e: Enemy, killed: bool)
    requires Tally(hp0, chain, flags) && e in hp0
    requires killed <==> Struck(hp0[e], |chain| + 1) == 0.0
    ensures Tally(hp0, chain + [e], flags + [killed])
    ensures Count(flags + [killed]) == Count(flags) + (if killed then 1 else 0)
  {
    assert (flags + [killed])[..|flags|] == flags;
  }

  /** A strike adds its enemy to the fallen exactly when it killed. */
  lemma FallenStep<T>(chain: seq<T>, flags: seq<bool>, e: T, killed: bool)
    requires |flags| == |chain|
    ensures Fallen(chain + [e], flags + [killed]) == Fallen(chain, flags) + (if killed then {e} else {})
  {
    assert (chain + [e])[..|chain|] == chain;
    assert (flags + [killed])[..|flags|] == flags;
  }

  /** The roster after one more strike: the enemy struck leaves it, by
      `kill()`, exactly when the strike killed, so the roster is still the
      starting one less the fallen. */
  lemma Fell<T>(start: seq<T>, chain: seq<T>, flags: seq<bool>, e: T, killed: bool, before: seq<T>, after: seq<T>)
    requires |flags| == |chain| && before == Except(start, Fallen(chain, flags))
    requires after == if killed then Without(before, e) else before
    ensures after == Except(start, Fallen(chain + [e], flags + [killed]))
  {
    FallenStep(chain, flags, e, killed);
    if killed {
      ExceptOneMore(start, Fallen(chain, flags), e);
    } else {
      assert Fallen(chain, flags) + {} == Fallen(chain, flags);
    }
  }

  /** One hop of the chain: strike `current`, the hop after `chain`, reward
      a kill, then look for the next target from it. */
  method Hop(now: int, player: Player, groups: Groups, ghost start: seq<Enemy>, ghost hp0: map<Enemy, real>,
             ghost pos0: map<Enemy, Vec>, ghost st0: map<Enemy, Status>, ghost standing: Progress,
             chain: seq<Enemy>, ghost flags: seq<bool>, current: Enemy)
    returns (longer: seq<Enemy>, ghost marks: seq<bool>, next: Enemy?)
    requires standing.threshold > 0 && current in start && current !in chain
    requires Ledger(start, chain, hp0, st0, now) && Roster(groups.enemies, start, chain) && Located(start, pos0)
    requires player.Valid() && player.Standing() == Rewards(standing, Count(flags)) && Tally(hp0, chain, flags)
    requires HopsAt(pos0, start, chain)
    requires groups.enemies == Except(start, Fallen(chain, flags))
    requires chain != [] ==>
               chain[|chain| - 1] in pos0 &&
               NearestAt(pos0, start, pos0[chain[|chain| - 1]], chain, Some(ChainRange), current)
    modifies player`level, player`xp, player`xpToNextLevel, groups`enemies
    modifies current`currentHp, current`isHit, current`hitTime, current`alive
    ensures longer == chain + [current]
    ensures Ledger(start, longer, hp0, st0, now) && Roster(groups.enemies, start, longer) && Located(start, pos0)
    ensures player.Valid() && player.Standing() == Rewards(standing, Count(marks)) && Tally(hp0, longer, marks)
    ensures HopsAt(pos0, start, longer)
    ensures groups.enemies == Except(start, Fallen(longer, marks))
    ensures current in pos0
    ensures next != null ==> next in start && NearestAt(pos0, start, pos0[current], longer, Some(ChainRange), next)
    ensures next == null ==> NoneEligibleAt(pos0, start, pos0[current], longer, Some(ChainRange))
  {
    HopsExtend(pos0, start, chain, current);
    var killed;
    killed, marks := StrikeOne(now, player, groups, start, hp0, pos0, st0, standing, chain, flags, current);
    longer := chain + [current];
    next := Seek(player, groups, start, hp0, pos0, st0, now, Fallen(longer, marks), longer, current.pos, Some(ChainRange));
  }

  /** The chain loop of `LightningBolt.cast`, from the first target on: each
      pass strikes the current target with the damage of its hop, rewards a
      kill, and looks for the next target from it. */
  method Strike(now: int, player: Player, groups: Groups, ghost start: seq<Enemy>, ghost pos0: map<Enemy, Vec>)
    returns (chain: seq<Enemy>)
    requires player.Valid() && start == groups.enemies && pos0 == Positions(start)
    requires forall k :: 0 <= k < |groups.enemies| ==> groups.enemies[k].Valid()
    modifies player`level, player`xp, player`xpToNextLevel, groups`enemies
    modifies groups.enemies`currentHp, groups.enemies`isHit, groups.enemies`hitTime, groups.enemies`alive
    ensures player.Valid()
    ensures Lightning(start, pos0, old(player.pos), chain)
    ensures Discharged(start, old(HpOf(start)), chain, groups.enemies)
    ensures player.Standing() == Rewards(old(player.Standing()), KillCount(chain))
    ensures Stamped(start, chain, old(StatusOf(start)), now)
    ensures forall k :: 0 <= k < |start| ==> start[k].Valid()
  {
    ghost var hp0, st0 := HpOf(start), StatusOf(start);
    assert Roster(groups.enemies, start, []) && Ledger(start, [], hp0, st0, now);
    ghost var flags;
    chain, flags := Chain(now, player, groups, start, hp0, pos0, st0, player.pos);
    Settled(start, hp0, st0, now, chain, flags);
    forall k | 0 <= k < |start|
      ensures start[k].Valid()
    {
      assert start[k] in start;
    }
  }

  /** The chain `Strike` ends with keeps every promise of `Lightning`, from
      what the search for the first target and the chain loop ensure. */
  lemma Aimed(start: seq<Enemy>, at: map<Enemy, Vec>, from: Vec, first: Enemy?, chain: seq<Enemy>)
    requires first == null ==> NoneEligibleAt(at, start, from, [], None) && chain == []
    requires start != [] ==> EligibleAt(at, from, [], None, start[0])
    requires first != null ==>
               first in start && NearestAt(at, start, from, [], None, first) &&
               1 <= |chain| <= ChainCount && chain[0] == first && HopsAt(at, start, chain) &&
               (forall i, j :: 0 <= i < j < |chain| ==> chain[i] != chain[j]) &&
               (forall e :: e in chain ==> e in start) &&
               (|chain| < ChainCount ==>
                  chain[|chain| - 1] in at && NoneEligibleAt(at, start, at[chain[|chain| - 1]], chain, Some(ChainRange)))
    ensures Lightning(start, at, from, chain)
  {
  }

  /** What the loop of `Strike` leaves on the enemies it struck, against the
      hp recorded when the cast began. */
  lemma Settled(start: seq<Enemy>, hp0: map<Enemy, real>, st0: map<Enemy, Status>, now: int, chain: seq<Enemy>, flags: seq<bool>)
    requires Ledger(start, chain, hp0, st0, now) && Tally(hp0, chain, flags)
    ensures forall i :: 0 <= i < |chain| ==> chain[i] in hp0 && chain[i].currentHp == Struck(hp0[chain[i]], i + 1)
    ensures KillCount(chain) == Count(flags)
    ensures Fallen(chain, flags) == Slain(hp0, chain)
  {
    KillCountFlags(chain, flags);
  }

  /** The loop of `Strike`, on the hp and positions recorded when the cast
      began. */
  method Chain(now: int, player: Player, groups: Groups, ghost start: seq<Enemy>, ghost hp0: map<Enemy, real>,
               ghost pos0: map<Enemy, Vec>, ghost st0: map<Enemy, Status>, from: Vec)
    returns (chain: seq<Enemy>, ghost flags: seq<bool>)
    requires player.Valid()
    requires Ledger(start, [], hp0, st0, now) && Roster(groups.enemies, start, []) && Located(start, pos0)
    requires groups.enemies == start
    modifies player`level, player`xp, player`xpToNextLevel, groups`enemies
    modifies start`currentHp, start`isHit, start`hitTime, start`alive
    ensures player.Valid() && Ledger(start, chain, hp0, st0, now)
    ensures player.Standing() == Rewards(old(player.Standing()), Count(flags)) && Tally(hp0, chain, flags)
    ensures groups.enemies == Except(start, Fallen(chain, flags))
    ensures Lightning(start, pos0, from, chain)
  {
    ghost var standing := player.Standing();
    if start != [] {
      assert EligibleAt(pos0, from, [], None, start[0]);
    }
    ExceptNone(start);
    var first := Seek(player, groups, start, hp0, pos0, st0, now, {}, [], from, None);
    chain, flags := [], [];
    var current := first;
    while |chain| < ChainCount && current != null
      invariant Ledger(start, chain, hp0, st0, now) && Roster(groups.enemies, start, chain) && Located(start, pos0)
      invariant player.Valid() && player.Standing() == Rewards(standing, Count(flags)) && Tally(hp0, chain, flags)
      invariant HopsAt(pos0, start, chain)
      invariant groups.enemies == Except(start, Fallen(chain, flags))
      invariant |chain| <= ChainCount && (chain == [] ==> current == first) && (chain != [] ==> chain[0] == first)
      invariant current != null ==> current in start && current !in chain
      invariant chain != [] ==> chain[|chain| - 1] in pos0
      invariant chain != [] && current != null ==>
                  NearestAt(pos0, start, pos0[chain[|chain| - 1]], chain, Some(ChainRange), current)
      invariant chain != [] && current == null ==>
                  NoneEligibleAt(pos0, start, pos0[chain[|chain| - 1]], chain, Some(ChainRange))
      decreases ChainCount - |chain|
    {
      var last := current;
      chain, flags, current := Hop(now, player, groups, start, hp0, pos0, st0, standing, chain, flags, current);
      assert chain[|chain| - 1] == last;
    }
    Aimed(start, pos0, from, first, chain);
  }
}
