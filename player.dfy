/**
 * The player's character sheet: experience, levels, health and the power
 * that scales combat damage.
 */
module Players {
  /** The progression fields of the player, as a value. */
  datatype Stats = Stats(level: int, xp: int, xpToNextLevel: int, health: int, maxHealth: int, power: int)

  /** `Math.floor(n * 1.5)`, in integers. */
  function Grow15(n: int): (r: int)
    ensures r == (n as real * 1.5).Floor
  {
    var q := (3 * n) / 2;
    assert n as real * 1.5 == q as real + (3 * n - 2 * q) as real / 2.0;
    q
  }

  /** `Math.floor(n * 1.2)`, in integers. */
  function Grow12(n: int): (r: int)
    ensures r == (n as real * 1.2).Floor
  {
    var q := (6 * n) / 5;
    assert n as real * 1.2 == q as real + (6 * n - 5 * q) as real / 5.0;
    q
  }

  /** Both growth factors strictly raise every value of at least their threshold. */
  lemma GrowthIncreases(n: int)
    ensures n >= 2 ==> Grow15(n) > n
    ensures n >= 5 ==> Grow12(n) > n
    ensures n >= 0 ==> Grow15(n) >= n && Grow12(n) >= n
  {
  }

  /** `levelUp`, on values. */
  function Promote(s: Stats): Stats
  {
    var maxHealth := Grow12(s.maxHealth);
    Stats(s.level + 1, if s.xp - s.xpToNextLevel < 0 then 0 else s.xp - s.xpToNextLevel,
          Grow15(s.xpToNextLevel), maxHealth, maxHealth, Grow12(s.power))
  }

  /**
   * One level up: the level rises by one, the threshold is paid out of the
   * experience (never below zero), health is refilled to the new maximum,
   * and threshold, maximum health and power grow by half, a fifth and a
   * fifth.
   */
  lemma PromoteEffect(s: Stats)
    ensures Promote(s).level == s.level + 1
    ensures Promote(s).xp >= 0
    ensures s.xp >= s.xpToNextLevel ==> Promote(s).xp == s.xp - s.xpToNextLevel
    ensures Promote(s).health == Promote(s).maxHealth
    ensures s.xpToNextLevel >= 2 ==> Promote(s).xpToNextLevel > s.xpToNextLevel
    ensures s.xpToNextLevel >= 1 ==> Promote(s).xpToNextLevel >= s.xpToNextLevel
    ensures s.maxHealth >= 0 ==> Promote(s).maxHealth >= s.maxHealth
    ensures s.power >= 0 ==> Promote(s).power >= s.power
  {
    GrowthIncreases(s.xpToNextLevel);
    GrowthIncreases(s.maxHealth);
    GrowthIncreases(s.power);
  }

  /** The `while` of `gainXP`: level up as long as the experience reaches the threshold. */
  function Settle(s: Stats): (r: Stats)
    requires s.xpToNextLevel >= 1
    ensures r.xp < r.xpToNextLevel
    ensures r.xpToNextLevel >= s.xpToNextLevel
    ensures r.level >= s.level
    ensures r.level == s.level <==> s.xp < s.xpToNextLevel
    ensures r.level == s.level ==> r == s
    ensures r.level > s.level ==> r.health == r.maxHealth && r.xp >= 0
    decreases s.xp
  {
    if s.xp < s.xpToNextLevel then s
    else
      PromoteEffect(s);
      Settle(Promote(s))
  }

  /** The first level up of a fresh character: level 2 at 100 experience, 150 to the next. */
  lemma FirstLevel()
    ensures Settle(Stats(1, 100, 100, 100, 100, 10)) == Stats(2, 0, 150, 120, 120, 12)
  {
    var s := Stats(1, 100, 100, 100, 100, 10);
    assert Promote(s) == Stats(2, 0, 150, 120, 120, 12);
  }

  class Player {
    var x: real
    var y: real
    var health: int
    var maxHealth: int
    var mana: int
    var maxMana: int
    var level: int
    var xp: int
    var xpToNextLevel: int
    var power: int

    /** The threshold stays positive, which is what lets `gainXP` stop. */
    predicate Valid()
      reads this
    {
      xpToNextLevel >= 1
    }

    predicate Healthy()
      reads this
    {
      0 <= health <= maxHealth
    }

    function Sheet(): Stats
      reads this
    {
      Stats(level, xp, xpToNextLevel, health, maxHealth, power)
    }

    constructor(x: real, y: real)
      ensures Valid() && Healthy()
      ensures this.x == x && this.y == y
      ensures Sheet() == Stats(1, 0, 100, 100, 100, 10)
      ensures mana == maxMana == 100
    {
      this.x, this.y := x, y;
      health, maxHealth := 100, 100;
      mana, maxMana := 100, 100;
      level, xp, xpToNextLevel := 1, 0, 100;
      power := 10;
    }

    /** `levelUp`. */
    method LevelUp()
      modifies this
      ensures Sheet() == Promote(old(Sheet()))
      ensures x == old(x) && y == old(y) && mana == old(mana) && maxMana == old(maxMana)
    {
      level := level + 1;
      xp := if xp - xpToNextLevel < 0 then 0 else xp - xpToNextLevel;
      xpToNextLevel := Grow15(xpToNextLevel);
      maxHealth := Grow12(maxHealth);
      health := maxHealth;
      power := Grow12(power);
    }

    /** `gainXP`: add the experience, then level up until it is below the threshold. */
    method GainXP(amount: int)
      requires Valid()
      modifies this
      ensures Valid()
      ensures Sheet() == Settle(old(Sheet()).(xp := old(xp) + amount))
      ensures xp < xpToNextLevel
      ensures x == old(x) && y == old(y) && mana == old(mana) && maxMana == old(maxMana)
    {
      xp := xp + amount;
      while xp >= xpToNextLevel
        invariant Valid()
        invariant Settle(Sheet()) == Settle(old(Sheet()).(xp := old(xp) + amount))
        invariant x == old(x) && y == old(y) && mana == old(mana) && maxMana == old(maxMana)
        decreases xp
      {
        PromoteEffect(Sheet());
        LevelUp();
      }
    }

    /** `takeDamage`: health drops by the amount but not below zero; reports whether the player lives. */
    method TakeDamage(amount: int) returns (alive: bool)
      modifies this
      ensures health == if old(health) - amount < 0 then 0 else old(health) - amount
      ensures alive <==> health > 0
      ensures health >= 0
      ensures old(Healthy()) && amount >= 0 ==> Healthy() && health <= old(health)
      ensures Sheet() == old(Sheet()).(health := health)
      ensures x == old(x) && y == old(y) && mana == old(mana) && maxMana == old(maxMana)
    {
      health := if health - amount < 0 then 0 else health - amount;
      alive := health > 0;
    }

    /** `heal`: health rises by the amount but not above the maximum. */
    method Heal(amount: int)
      modifies this
      ensures health == if old(health) + amount > maxHealth then maxHealth else old(health) + amount
      ensures health <= maxHealth
      ensures old(Healthy()) && amount >= 0 ==> Healthy() && health >= old(health)
      ensures Sheet() == old(Sheet()).(health := health)
      ensures x == old(x) && y == old(y) && mana == old(mana) && maxMana == old(maxMana)
    {
      health := if health + amount > maxHealth then maxHealth else health + amount;
    }
  }
}
