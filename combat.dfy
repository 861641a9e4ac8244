/**
 * Turn-based combat: one exchange of blows per attack, a one-second
 * cooldown between attacks, and the bookkeeping when either side falls.
 */
module Combats {
  import opened Wrappers
  import opened Grid
  import opened TerrainSpec
  import opened Players
  import opened Monsters

  const AttackCooldown: int := 1000

  /** `Math.floor(Math.random() * power) + Math.floor(power / 2)`. */
  function PlayerDamage(r: real, power: int): int
  {
    Scale(r, power) + power / 2
  }

  /** `Math.floor(Math.random() * power) + Math.floor(power / 3)`. */
  function MonsterDamage(r: real, power: int): int
  {
    Scale(r, power) + power / 3
  }

  /** The player deals at least half their power, and less than one and a half times it. */
  lemma PlayerDamageRange(r: real, power: int)
    requires IsDraw(r) && power >= 1
    ensures power / 2 <= PlayerDamage(r, power) <= power - 1 + power / 2
    ensures PlayerDamage(r, power) >= 1 || power == 1
  {
    ScaleInRange(r, power);
  }

  /** A monster deals at least a third of its power, and less than four thirds of it. */
  lemma MonsterDamageRange(r: real, power: int)
    requires IsDraw(r) && power >= 1
    ensures power / 3 <= MonsterDamage(r, power) <= power - 1 + power / 3
  {
    ScaleInRange(r, power);
  }

  /** Every catalogue monster hits for at least one point, so a counterattack always hurts. */
  lemma CatalogueMonstersHurt(r: real, t: MonsterType)
    requires IsDraw(r) && t in MonsterTypes
    ensures MonsterDamage(r, t.power) >= 1
  {
    MonsterDamageRange(r, t.power);
  }

  class Combat {
    const player: Player
    const monsterManager: MonsterManager
    var inCombat: bool
    var currentMonster: Option<Monster>
    var lastAttackTime: int

    /** Combat is on exactly when there is a monster to fight. */
    predicate Valid()
      reads this, player, monsterManager, monsterManager.terrain
    {
      player.Valid() && monsterManager.Valid() && (inCombat <==> currentMonster.Some?)
    }

    constructor(player: Player, monsterManager: MonsterManager)
      requires player.Valid() && monsterManager.Valid()
      ensures this.player == player && this.monsterManager == monsterManager
      ensures !inCombat && currentMonster == None && lastAttackTime == 0
      ensures Valid()
    {
      this.player, this.monsterManager := player, monsterManager;
      inCombat, currentMonster, lastAttackTime := false, None, 0;
    }

    /** An attack would go through at time `now`: a monster is engaged and the cooldown has passed. */
    predicate Ready(now: int)
      reads this
    {
      inCombat && currentMonster.Some? && now - lastAttackTime >= AttackCooldown
    }

    /**
     * One exchange against `m`: the player's blow lands; a monster brought
     * to zero or below pays out its experience, leaves the map (with the
     * respawn drawn from `d`) and ends the fight without striking back;
     * otherwise it strikes back, and a player brought to zero ends the fight.
     * The player's position and mana never change.
     */
    twostate predicate Exchanged(m: Monster, r1: real, r2: real, d: SpawnDraw)
      requires DrawOk(d)
      reads this, m, player, monsterManager, monsterManager.terrain, monsterManager.monsters
    {
      old(player.Valid()) &&
      player.x == old(player.x) && player.y == old(player.y) &&
      player.mana == old(player.mana) && player.maxMana == old(player.maxMana) &&
      m.currentHealth == old(m.currentHealth) - PlayerDamage(r1, old(player.power)) &&
      if m.currentHealth <= 0 then
        player.Sheet() == Settle(old(player.Sheet()).(xp := old(player.xp) + m.xp)) &&
        monsterManager.RemovedFrom(old(monsterManager.monsters), m, d) &&
        !inCombat && currentMonster == None
      else
        player.Sheet() == old(player.Sheet()).(health := Max(0, old(player.health) - MonsterDamage(r2, m.power))) &&
        monsterManager.monsters == old(monsterManager.monsters) &&
        (player.health == 0 ==> !inCombat && currentMonster == None)
    }

    /** `initiateCombat`: one exchange of blows. */
    method InitiateCombat(monster: Monster, r1: real, r2: real, d: SpawnDraw)
      requires Valid() && IsDraw(r1) && IsDraw(r2) && DrawOk(d)
      requires inCombat ==> currentMonster == Some(monster)
      modifies this, monster, player, monsterManager
      ensures Valid()
      ensures Exchanged(monster, r1, r2, d)
      ensures monster.currentHealth > 0 && player.health > 0 ==>
        inCombat == old(inCombat) && currentMonster == old(currentMonster)
      ensures lastAttackTime == old(lastAttackTime)
    {
      if monster.currentHealth - PlayerDamage(r1, player.power) <= 0 {
        Defeat(monster, r1, r2, d);
      } else {
        StrikeBack(monster, r1, r2, d);
      }
    }

    /**
     * The blow that brings the monster to zero or below: experience, removal,
     * end of combat. The removal, the blow and the experience touch three
     * different objects, so the order in which they are applied is not
     * observable.
     */
    method Defeat(monster: Monster, r1: real, r2: real, d: SpawnDraw)
      requires Valid() && IsDraw(r1) && DrawOk(d)
      requires monster.currentHealth - PlayerDamage(r1, player.power) <= 0
      modifies this, monster, player, monsterManager
      ensures Valid()
      ensures monster.currentHealth == old(monster.currentHealth) - PlayerDamage(r1, old(player.power))
      ensures player.x == old(player.x) && player.y == old(player.y)
      ensures player.mana == old(player.mana) && player.maxMana == old(player.maxMana)
      ensures player.Sheet() == Settle(old(player.Sheet()).(xp := old(player.xp) + monster.xp))
      ensures monsterManager.RemovedFrom(old(monsterManager.monsters), monster, d)
      ensures !inCombat && currentMonster == None
      ensures lastAttackTime == old(lastAttackTime)
    {
      inCombat := false;
      currentMonster := None;
      var _ := monsterManager.RemoveMonster(monster, d);
      Reward(monster, r1);
    }

    /** The killing blow lands and the player collects the monster's experience. */
    method Reward(monster: Monster, r1: real)
      requires player.Valid()
      modifies monster, player
      ensures player.Valid()
      ensures monster.currentHealth == old(monster.currentHealth) - PlayerDamage(r1, old(player.power))
      ensures player.x == old(player.x) && player.y == old(player.y)
      ensures player.mana == old(player.mana) && player.maxMana == old(player.maxMana)
      ensures player.Sheet() == Settle(old(player.Sheet()).(xp := old(player.xp) + monster.xp))
    {
      var dealt := PlayerDamage(r1, player.power);
      monster.currentHealth := monster.currentHealth - dealt;
      player.GainXP(monster.xp);
    }

    /** A blow the monster survives: it strikes back, and a player brought to zero ends combat. */
    method StrikeBack(monster: Monster, r1: real, r2: real, d: SpawnDraw)
      requires Valid() && IsDraw(r1) && IsDraw(r2) && DrawOk(d)
      requires monster.currentHealth - PlayerDamage(r1, player.power) > 0
      requires inCombat ==> currentMonster == Some(monster)
      modifies this, monster, player
      ensures Valid()
      ensures monster.currentHealth == old(monster.currentHealth) - PlayerDamage(r1, old(player.power))
      ensures player.x == old(player.x) && player.y == old(player.y)
      ensures player.mana == old(player.mana) && player.maxMana == old(player.maxMana)
      ensures player.Sheet() == old(player.Sheet()).(health := Max(0, old(player.health) - MonsterDamage(r2, monster.power)))
      ensures player.health == 0 ==> !inCombat && currentMonster == None
      ensures player.health > 0 ==> inCombat == old(inCombat) && currentMonster == old(currentMonster)
      ensures lastAttackTime == old(lastAttackTime)
    {
      var dealt := PlayerDamage(r1, player.power);
      monster.currentHealth := monster.currentHealth - dealt;
      var taken := MonsterDamage(r2, monster.power);
      player.health := Max(0, player.health - taken);
      if player.health <= 0 {
        inCombat := false;
        currentMonster := None;
      }
    }

    /** `startCombat`: engage the monster, start the cooldown clock, and exchange blows once. */
    method StartCombat(monster: Monster, now: int, r1: real, r2: real, d: SpawnDraw)
      requires Valid() && IsDraw(r1) && IsDraw(r2) && DrawOk(d)
      modifies this, monster, player, monsterManager
      ensures Valid()
      ensures lastAttackTime == now
      ensures forall later :: later < now + AttackCooldown ==> !Ready(later)
      ensures Exchanged(monster, r1, r2, d)
      ensures monster.currentHealth > 0 && player.health > 0 ==> inCombat && currentMonster == Some(monster)
    {
      inCombat := true;
      currentMonster := Some(monster);
      lastAttackTime := now;
      InitiateCombat(monster, r1, r2, d);
    }

    /** `handleCombatInput`: Space attacks once the cooldown has passed; anything else is ignored. */
    method HandleCombatInput(code: string, now: int, r1: real, r2: real, d: SpawnDraw)
      requires Valid() && IsDraw(r1) && IsDraw(r2) && DrawOk(d)
      modifies this, player, monsterManager
      modifies if currentMonster.Some? then {currentMonster.value} else {}
      ensures Valid()
      ensures !(old(Ready(now)) && code == "Space") ==>
        unchanged(this, player, monsterManager) && (old(currentMonster).Some? ==> unchanged(old(currentMonster).value))
      ensures old(Ready(now)) && code == "Space" ==>
        lastAttackTime == now && Exchanged(old(currentMonster).value, r1, r2, d) &&
        forall later :: later < now + AttackCooldown ==> !Ready(later)
    {
      if !inCombat || currentMonster.None? {
        return;
      }
      if now - lastAttackTime < AttackCooldown {
        return;
      }
      if code == "Space" {
        lastAttackTime := now;
        InitiateCombat(currentMonster.value, r1, r2, d);
      }
    }

    /** The click handler: the same gate as the keyboard, without the key test. */
    method HandleClick(now: int, r1: real, r2: real, d: SpawnDraw)
      requires Valid() && IsDraw(r1) && IsDraw(r2) && DrawOk(d)
      modifies this, player, monsterManager
      modifies if currentMonster.Some? then {currentMonster.value} else {}
      ensures Valid()
      ensures !old(Ready(now)) ==>
        unchanged(this, player, monsterManager) && (old(currentMonster).Some? ==> unchanged(old(currentMonster).value))
      ensures old(Ready(now)) ==>
        lastAttackTime == now && Exchanged(old(currentMonster).value, r1, r2, d) &&
        forall later :: later < now + AttackCooldown ==> !Ready(later)
    {
      if inCombat && currentMonster.Some? {
        if now - lastAttackTime >= AttackCooldown {
          lastAttackTime := now;
          InitiateCombat(currentMonster.value, r1, r2, d);
        }
      }
    }
  }
}
